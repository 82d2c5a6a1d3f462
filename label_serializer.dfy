/** The BIP-329 label serializer: which additional fields a label of each
    type may carry, and how height, fee and value (integers) and rate, fmv
    and heights (JSON) are turned into text for storage and back. */
module LabelSerializer {
  import opened Wrappers
  import opened Text

  /** A JSON document. */
  datatype Json =
    | JNull
    | JBool(b: bool)
    | JInt(n: int)
    | JStr(str: string)
    | JArray(items: seq<Json>)
    | JObject(members: seq<(string, Json)>)

  /** A value in the serializer's data dictionary. */
  datatype Value = Null | Int(i: int) | Str(s: string) | Bool(b: bool) | Doc(j: Json)

  type Data = map<string, Value>

  /** The fields a label may carry beyond its core fields, in the order the
      model visits them (the source iterates a set, and the outcome does not
      depend on the order). */
  const AdditionalFields: seq<string> :=
    ["height", "time", "fee", "value", "rate", "keypath", "fmv", "heights", "spendable"]

  const CoreFields: set<string> := {"labelbase", "type", "ref", "label", "origin"}

  /** `data.get('type')` when it is a string. */
  function TypeName(data: Data): Option<string> {
    if "type" in data && data["type"].Str? then Some(data["type"].s) else None
  }

  /** The per-type table of allowed additional fields; a missing or unknown
      type, and xpub, allow none. */
  function Allowed(labelType: Option<string>): set<string> {
    if labelType == Some("tx") then {"height", "time", "fee", "value", "rate"}
    else if labelType == Some("addr") then {"keypath", "heights"}
    else if labelType == Some("pubkey") then {"keypath"}
    else if labelType == Some("input") then {"keypath", "value", "fmv", "height", "time"}
    else if labelType == Some("output") then {"spendable", "keypath", "value", "fmv", "height", "time"}
    else {}
  }

  /** Whether validation keeps key k of data. */
  predicate Keeps(data: Data, k: string)
    requires k in data
  {
    k !in AdditionalFields || data[k] == Null || k in Allowed(TypeName(data))
  }

  /** The data after validation: the dropped keys removed, every other entry as it was. */
  function Validated(data: Data): (r: Data)
    ensures forall k :: k in r ==> k in data && r[k] == data[k]
    // core fields and fields whose value is None are never removed
    ensures forall k :: k in data && (k in CoreFields || data[k] == Null) ==> k in r
    // `spendable` keeps a value only on an output label
    ensures "spendable" in r && r["spendable"] != Null ==> TypeName(data) == Some("output")
    // xpub, an unknown type or a missing type keeps no additional field that has a value
    ensures TypeName(data) !in {Some("tx"), Some("addr"), Some("pubkey"), Some("input"), Some("output")}
      ==> forall k :: k in r && k in AdditionalFields ==> r[k] == Null
  {
    map k | k in data && Keeps(data, k) :: data[k]
  }

  /** `LabelSerializer.validate`. */
  method Validate(data: Data) returns (r: Data)
    ensures r == Validated(data)
  {
    var allowed := Allowed(TypeName(data));
    r := data;
    var i := 0;
    while i < |AdditionalFields|
      invariant 0 <= i <= |AdditionalFields|
      invariant forall k :: k in r <==> k in data && (k in AdditionalFields[..i] ==> Keeps(data, k))
      invariant forall k :: k in r ==> r[k] == data[k]
    {
      var field := AdditionalFields[i];
      if field in r && r[field] != Null {
        if field !in allowed {
          r := r - {field};
        }
      }
      assert AdditionalFields[..i + 1] == AdditionalFields[..i] + [field];
      i := i + 1;
    }
    assert AdditionalFields[..i] == AdditionalFields;
  }

  /** Validation does not change the type, so validating again removes nothing more. */
  lemma ValidatedIdempotent(data: Data)
    ensures Validated(Validated(data)) == Validated(data)
  {
    var v := Validated(data);
    assert "type" !in AdditionalFields;
    assert TypeName(v) == TypeName(data);
    assert forall k :: k in v ==> Keeps(v, k);
  }

  // ---------------------------------------------------------------------
  // Storage conversions
  // ---------------------------------------------------------------------

  /** Integer fields stored as decimal text, and JSON fields stored as JSON text. */
  const IntFields: set<string> := {"height", "fee", "value"}
  const JsonFields: set<string> := {"rate", "fmv", "heights"}

  /** What the declared serializer fields guarantee of validated data: the
      integer fields hold integers, the JSON fields JSON documents (a JSON
      null arrives as None), and `heights`, a `ListField`, a list. */
  predicate WellTyped(data: Data) {
    (forall k :: k in data && k in IntFields ==> data[k].Null? || data[k].Int?)
    && (forall k :: k in data && k in JsonFields ==> data[k].Null? || (data[k].Doc? && data[k] != Doc(JNull)))
    && ("heights" in data && !data["heights"].Null? ==> data["heights"].j.JArray?)
  }

  /** One entry of `create`/`update`'s conversion for storage. */
  function StoredValue(k: string, v: Value, dumps: Json -> string): Value {
    if k in IntFields && v.Int? then Str(IntToString(v.i))
    else if k in JsonFields && v.Doc? then Str(dumps(v.j))
    else v
  }

  /** The validated data as `create`/`update` store it. */
  function ToStorage(data: Data, dumps: Json -> string): (r: Data)
    requires WellTyped(data)
    ensures r.Keys == data.Keys
    ensures forall k :: k in data && k !in IntFields + JsonFields ==> r[k] == data[k]
    ensures forall k :: k in data && k in IntFields + JsonFields ==> (r[k].Str? <==> !data[k].Null?)
  {
    map k | k in data :: StoredValue(k, data[k], dumps)
  }

  /** The conversion steps `create` and `update` apply to the validated data
      before saving, one field at a time. */
  method ConvertForStorage(data: Data, dumps: Json -> string) returns (r: Data)
    requires WellTyped(data)
    ensures r == ToStorage(data, dumps)
  {
    r := data;
    var fields := ["height", "fee", "value", "rate", "fmv", "heights"];
    var i := 0;
    while i < |fields|
      invariant 0 <= i <= |fields|
      invariant r.Keys == data.Keys
      invariant forall k :: k in r ==> r[k] == (if k in fields[..i] then StoredValue(k, data[k], dumps) else data[k])
    {
      var f := fields[i];
      if f in r && r[f] != Null {
        r := r[f := StoredValue(f, r[f], dumps)];
      }
      assert fields[..i + 1] == fields[..i] + [f];
      i := i + 1;
    }
    assert fields[..i] == fields;
    ConvertedAll(data, r, dumps);
  }

  /** After the six conversions every entry is as `ToStorage` has it. */
  lemma ConvertedAll(data: Data, r: Data, dumps: Json -> string)
    requires WellTyped(data)
    requires r.Keys == data.Keys
    requires forall k :: k in r ==> r[k] == (if k in ["height", "fee", "value", "rate", "fmv", "heights"] then StoredValue(k, data[k], dumps) else data[k])
    ensures r == ToStorage(data, dumps)
  {
    forall k | k in r
      ensures r[k] == StoredValue(k, data[k], dumps)
    {
      if k !in ["height", "fee", "value", "rate", "fmv", "heights"] {
        assert k !in IntFields + JsonFields;
      }
    }
  }

  /** `create`: a new label from the converted data. */
  function Create(data: Data, dumps: Json -> string): (r: Data)
    requires WellTyped(data)
    ensures r.Keys == data.Keys
  {
    ToStorage(data, dumps)
  }

  /** `update`: the converted data overwrites the stored label's fields; the rest stay. */
  function Update(instance: Data, data: Data, dumps: Json -> string): (r: Data)
    requires WellTyped(data)
    ensures r.Keys == instance.Keys + data.Keys
    ensures forall k :: k in instance && k !in data ==> r[k] == instance[k]
  {
    instance + ToStorage(data, dumps)
  }

  function JsonTruthy(j: Json): bool {
    match j
    case JNull => false
    case JBool(b) => b
    case JInt(n) => n != 0
    case JStr(s) => s != ""
    case JArray(items) => items != []
    case JObject(members) => members != []
  }

  /** Python truthiness of a value. */
  function Truthy(v: Value): bool {
    match v
    case Null => false
    case Int(i) => i != 0
    case Str(s) => s != ""
    case Bool(b) => b
    case Doc(j) => JsonTruthy(j)
  }

  /** `int()` of a JSON value, None when it raises. */
  function JsonIntOf(j: Json): Option<int> {
    match j
    case JInt(n) => Some(n)
    case JBool(b) => Some(if b then 1 else 0)
    case JStr(s) => ParsePyInt(s)
    case _ => None
  }

  /** `int(v)`, None when it raises. */
  function IntOf(v: Value): Option<int> {
    match v
    case Int(i) => Some(i)
    case Bool(b) => Some(if b then 1 else 0)
    case Str(s) => ParsePyInt(s)
    case Doc(j) => JsonIntOf(j)
    case Null => None
  }

  /** The items a value yields when iterated: the one-character strings of a
      text, the items of a list, the keys of a dictionary; None when it is
      not iterable. */
  function Iterated(v: Value): (r: Option<seq<Json>>)
    ensures v.Str? ==> r.Some? && |r.value| == |v.s| && forall i :: 0 <= i < |v.s| ==> r.value[i] == JStr([v.s[i]])
  {
    match v
    case Str(s) => Some(seq(|s|, i requires 0 <= i < |s| => JStr([s[i]])))
    case Doc(JStr(s)) => Some(seq(|s|, i requires 0 <= i < |s| => JStr([s[i]])))
    case Doc(JArray(items)) => Some(items)
    case Doc(JObject(members)) => Some(seq(|members|, i requires 0 <= i < |members| => JStr(members[i].0)))
    case _ => None
  }

  /** The child `IntegerField` on one item of a `ListField`: a None item is
      kept as None, any other item becomes `int()` of it; None when that raises. */
  function ItemInt(item: Json): Option<Json> {
    if item == JNull then Some(JNull)
    else match JsonIntOf(item) case Some(n) => Some(JInt(n)) case None => None
  }

  /** `ListField.to_representation`: the child field on each item, in order;
      None when the child raises on one item. */
  function ListItems(items: seq<Json>, child: Json -> Option<Json>): (r: Option<seq<Json>>)
    ensures r.Some? ==> |r.value| == |items|
  {
    if items == [] then Some([])
    else
      var head := child(items[0]);
      var rest := ListItems(items[1..], child);
      if head.None? || rest.None? then None else Some([head.value] + rest.value)
  }

  /** One item on which the child raises makes the whole list raise. */
  lemma {:induction false} ListItemsRaiseAt(items: seq<Json>, child: Json -> Option<Json>, i: nat)
    requires i < |items| && child(items[i]).None?
    ensures ListItems(items, child).None?
  {
    if i > 0 {
      assert items[1..][i - 1] == items[i];
      ListItemsRaiseAt(items[1..], child, i - 1);
    }
  }

  /** The declared field's own `to_representation`, which
      `ModelSerializer.to_representation` applies to each stored attribute
      before the overriding code sees it: a None attribute stays None, an
      `IntegerField` takes `int()`, and a `ListField` of `IntegerField`s
      iterates the value and takes `int()` of each item. None when that
      raises. `JSONField` and `CharField` give the stored text back. With
      `heightsAsList` false, `heights` is read like the other JSON fields. */
  function FieldShown(k: string, v: Value, heightsAsList: bool): Option<Value> {
    if v.Null? || v == Doc(JNull) then Some(v)
    else if k == "heights" && heightsAsList then
      match Iterated(v)
      case None => None
      case Some(items) =>
        match ListItems(items, ItemInt) case Some(xs) => Some(Doc(JArray(xs))) case None => None
    else if k in IntFields then
      match IntOf(v) case Some(i) => Some(Int(i)) case None => None
    else Some(v)
  }

  /** `super().to_representation(instance)`: every field converted, or None
      when one of the conversions raises. */
  function Declared(stored: Data, heightsAsList: bool): Option<Data> {
    if forall k | k in stored :: FieldShown(k, stored[k], heightsAsList).Some? then
      Some(map k | k in stored :: FieldShown(k, stored[k], heightsAsList).value)
    else None
  }

  /** One entry of `to_representation`. */
  function ShownValue(k: string, v: Value, loads: string -> Option<Json>): Value {
    if !Truthy(v) then v
    else if k in IntFields then
      match IntOf(v) case Some(i) => Int(i) case None => Null
    else if k in JsonFields then
      (if v.Str? then match loads(v.s) case Some(j) => Doc(j) case None => Null else Null)
    else v
  }

  /** The overriding code applied to what `super()` gave. */
  function Shown(stored: Data, loads: string -> Option<Json>, heightsAsList: bool): Option<Data> {
    match Declared(stored, heightsAsList)
    case None => None
    case Some(d) => Some(map k | k in d :: ShownValue(k, d[k], loads))
  }

  /** `to_representation`: the stored label as the API shows it, or None
      when it raises. What it gives for the integer fields and `heights` is
      stated by the lemmas that follow. */
  function ToRepresentation(stored: Data, loads: string -> Option<Json>): (r: Option<Data>)
    ensures r.Some? ==> r.value.Keys == stored.Keys
    ensures r.Some? ==> forall k :: k in stored && k !in IntFields + JsonFields ==> r.value[k] == stored[k]
  {
    ShownEverywhere(stored, loads, true);
    Shown(stored, loads, true)
  }

  /** Stored integer text that `int()` rejects, the empty text included,
      raises inside `super()`, before the overriding `try` can catch it. */
  lemma IntTextRaises(stored: Data, loads: string -> Option<Json>, k: string)
    requires k in stored && k in IntFields && stored[k].Str? && ParsePyInt(stored[k].s).None?
    ensures ToRepresentation(stored, loads).None?
  {
    IntFieldConversion(k, stored[k], true);
    ShownAt(stored, loads, true, k);
  }

  /** Otherwise stored integer text is shown as its integer. */
  lemma IntTextShown(stored: Data, loads: string -> Option<Json>, k: string)
    requires k in stored && k in IntFields && stored[k].Str?
    requires ToRepresentation(stored, loads).Some?
    ensures ParsePyInt(stored[k].s).Some?
    ensures ToRepresentation(stored, loads).value[k] == Int(ParsePyInt(stored[k].s).value)
  {
    var v := stored[k];
    assert FieldShown(k, v, true).Some?
      && ToRepresentation(stored, loads).value[k] == ShownValue(k, FieldShown(k, v, true).value, loads) by {
      ShownAt(stored, loads, true, k);
    }
    IntFieldConversion(k, v, true);
    IntShownAgain(k, ParsePyInt(v.s).value, loads);
  }

  /** An integer field's own conversion of stored text is `int()`. */
  lemma IntFieldConversion(k: string, v: Value, heightsAsList: bool)
    requires k in IntFields && v.Str?
    ensures FieldShown(k, v, heightsAsList) == if ParsePyInt(v.s).Some? then Some(Int(ParsePyInt(v.s).value)) else None
  {
    FieldNames(k);
  }

  /** The overriding `int()` leaves an integer as it is. */
  lemma IntShownAgain(k: string, n: int, loads: string -> Option<Json>)
    requires k in IntFields
    ensures ShownValue(k, Int(n), loads) == Int(n)
  {
  }

  /** Stored `heights` text is iterated character by character, so a
      character that is not a digit raises. */
  lemma HeightsTextRaises(stored: Data, loads: string -> Option<Json>, i: nat)
    requires "heights" in stored && stored["heights"].Str?
    requires i < |stored["heights"].s| && !IsDigit(stored["heights"].s[i])
    ensures ToRepresentation(stored, loads).None?
  {
    CharItemsRaise(stored["heights"], i);
    ListOfFailedItems(stored["heights"]);
    ShownAt(stored, loads, true, "heights");
  }

  /** The list of digits that survives is handed to `json.loads`, which
      rejects a list; only the empty text, an empty list, stays. */
  lemma HeightsListRejected(stored: Data, loads: string -> Option<Json>)
    requires "heights" in stored && stored["heights"].Str?
    requires ToRepresentation(stored, loads).Some?
    ensures ToRepresentation(stored, loads).value["heights"] == if stored["heights"].s == "" then Doc(JArray([])) else Null
  {
    var v := stored["heights"];
    assert FieldShown("heights", v, true).Some?
      && ToRepresentation(stored, loads).value["heights"] == ShownValue("heights", FieldShown("heights", v, true).value, loads) by {
      ShownAt(stored, loads, true, "heights");
    }
    ListFieldShape(v);
    ListShownAgain(ListItems(Iterated(v).value, ItemInt).value, loads);
  }

  /** What the `ListField` makes of stored text that it can convert. */
  lemma ListFieldShape(v: Value)
    requires v.Str?
    ensures FieldShown("heights", v, true).Some? ==>
      && ListItems(Iterated(v).value, ItemInt).Some?
      && FieldShown("heights", v, true) == Some(Doc(JArray(ListItems(Iterated(v).value, ItemInt).value)))
      && |ListItems(Iterated(v).value, ItemInt).value| == |v.s|
  {
  }

  /** `json.loads` of a non-empty list raises `TypeError`, which is caught;
      an empty list is not converted. */
  lemma ListShownAgain(xs: seq<Json>, loads: string -> Option<Json>)
    ensures ShownValue("heights", Doc(JArray(xs)), loads) == if xs == [] then Doc(JArray([])) else Null
  {
    FieldNames("heights");
  }

  /** Stored `rate` or `fmv` text is kept by its `JSONField` and shown as
      the document `json.loads` reads from it, or as None when `json.loads`
      rejects it. */
  lemma JsonTextShown(stored: Data, loads: string -> Option<Json>, k: string)
    requires k in {"rate", "fmv"} && k in stored && stored[k].Str? && stored[k].s != ""
    requires ToRepresentation(stored, loads).Some?
    ensures ToRepresentation(stored, loads).value[k] == (match loads(stored[k].s) case Some(j) => Doc(j) case None => Null)
  {
    ShownAt(stored, loads, true, k);
    FieldNames(k);
  }

  /** Only the integer fields and `heights` can raise. */
  lemma RaisesOnlyAt(stored: Data, loads: string -> Option<Json>)
    ensures ToRepresentation(stored, loads).None? ==>
      exists k :: k in stored && k in IntFields + {"heights"} && !stored[k].Null?
  {
    ShownRaisesSomewhere(stored, loads, true);
    if ToRepresentation(stored, loads).None? {
      var k :| k in stored && FieldShown(k, stored[k], true).None?;
      assert k in IntFields + {"heights"} && !stored[k].Null?;
    }
  }

  /** The field names the conversions tell apart. */
  lemma FieldNames(k: string)
    ensures k in IntFields ==> k != "heights" && k !in JsonFields
    ensures "heights" in JsonFields && "heights" !in IntFields
  {
  }

  /** What `Shown` gives at one key. */
  lemma ShownAt(stored: Data, loads: string -> Option<Json>, heightsAsList: bool, k: string)
    requires k in stored
    ensures FieldShown(k, stored[k], heightsAsList).None? ==> Shown(stored, loads, heightsAsList).None?
    ensures Shown(stored, loads, heightsAsList).Some? ==>
      && Shown(stored, loads, heightsAsList).value.Keys == stored.Keys
      && FieldShown(k, stored[k], heightsAsList).Some?
      && Shown(stored, loads, heightsAsList).value[k] == ShownValue(k, FieldShown(k, stored[k], heightsAsList).value, loads)
  {
  }

  /** `ShownAt` at every key. */
  lemma ShownEverywhere(stored: Data, loads: string -> Option<Json>, heightsAsList: bool)
    ensures Shown(stored, loads, heightsAsList).Some? ==> Shown(stored, loads, heightsAsList).value.Keys == stored.Keys
    ensures Shown(stored, loads, heightsAsList).Some? ==> forall k :: k in stored ==>
      && FieldShown(k, stored[k], heightsAsList).Some?
      && Shown(stored, loads, heightsAsList).value[k] == ShownValue(k, FieldShown(k, stored[k], heightsAsList).value, loads)
  {
    forall k | k in stored
      ensures Shown(stored, loads, heightsAsList).Some? ==>
        && FieldShown(k, stored[k], heightsAsList).Some?
        && Shown(stored, loads, heightsAsList).value[k] == ShownValue(k, FieldShown(k, stored[k], heightsAsList).value, loads)
    {
      ShownAt(stored, loads, heightsAsList, k);
    }
  }

  /** `Shown` raises only where a field's own conversion raises. */
  lemma ShownRaisesSomewhere(stored: Data, loads: string -> Option<Json>, heightsAsList: bool)
    ensures Shown(stored, loads, heightsAsList).None? ==> exists k :: k in stored && FieldShown(k, stored[k], heightsAsList).None?
  {
  }

  /** The items of a text whose character i is not a digit make `int()` raise. */
  lemma CharItemsRaise(v: Value, i: nat)
    requires v.Str? && i < |v.s| && !IsDigit(v.s[i])
    ensures ListItems(Iterated(v).value, ItemInt).None?
  {
    var items := Iterated(v).value;
    assert items[i] == JStr([v.s[i]]);
    OneCharItem(v.s[i]);
    ListItemsRaiseAt(items, ItemInt, i);
  }

  /** A one-character item that is not a digit makes `int()` raise. */
  lemma OneCharItem(c: char)
    requires !IsDigit(c)
    ensures ItemInt(JStr([c])).None?
  {
    OneCharInt(c);
  }

  /** A `heights` text whose items raise raises. */
  lemma ListOfFailedItems(v: Value)
    requires v.Str? && ListItems(Iterated(v).value, ItemInt).None?
    ensures FieldShown("heights", v, true).None?
  {
  }

  /** `int()` of one character accepts only a digit. */
  lemma OneCharInt(c: char)
    ensures ParsePyInt([c]).Some? ==> IsDigit(c)
  {
    StripOne(c);
    if !IsSpace(c) && c != '-' && c != '+' {
      assert ParsePyInt([c]).Some? ==> DigitGroups([c]);
    }
  }

  /** Stripping one character leaves it unless it is whitespace. */
  lemma StripOne(c: char)
    ensures Strip([c]) == if IsSpace(c) then [] else [c]
  {
    var s := [c];
    if IsSpace(c) {
      assert s[1..] == [];
      assert StripLeft(s) == StripLeft([]) == [];
      assert StripRight([]) == [];
    } else {
      assert StripLeft(s) == s;
      assert s[|s| - 1] == c;
      assert StripRight(s) == s;
    }
  }



  /** `super().to_representation(instance)`: the declared fields' own
      conversions, one field at a time; the text, JSON and other fields come
      back as stored. */
  method DeclaredFields(stored: Data) returns (r: Option<Data>)
    ensures r == Declared(stored, true)
  {
    var data := stored;
    var pending := stored.Keys;
    while pending != {}
      invariant pending <= stored.Keys && data.Keys == stored.Keys
      invariant forall k :: k in pending ==> data[k] == stored[k]
      invariant forall k :: k in stored && k !in pending ==> FieldShown(k, stored[k], true) == Some(data[k])
      decreases pending
    {
      var k :| k in pending;
      var shown := FieldShown(k, stored[k], true);
      if shown.None? {
        return None;
      }
      data := data[k := shown.value];
      pending := pending - {k};
    }
    DeclaredOf(stored, data, true);
    r := Some(data);
  }

  /** `Declared` is the map of the fields' conversions when none raises. */
  lemma DeclaredOf(stored: Data, data: Data, heightsAsList: bool)
    requires data.Keys == stored.Keys
    requires forall k :: k in stored ==> FieldShown(k, stored[k], heightsAsList) == Some(data[k])
    ensures Declared(stored, heightsAsList) == Some(data)
  {
    assert forall k | k in stored :: FieldShown(k, stored[k], heightsAsList).Some?;
    assert (map k | k in stored :: FieldShown(k, stored[k], heightsAsList).value) == data;
  }

  /** `to_representation`: `super()`, then the overriding conversions. */
  method Represent(stored: Data, loads: string -> Option<Json>) returns (r: Option<Data>)
    ensures r == ToRepresentation(stored, loads)
  {
    var declared := DeclaredFields(stored);
    if declared.None? {
      return None;
    }
    var shown := Overrides(declared.value, loads);
    r := Some(shown);
  }

  /** The overriding part of `to_representation`, one field at a time, on
      what `super()` gave. */
  method Overrides(data: Data, loads: string -> Option<Json>) returns (shown: Data)
    ensures shown == map k | k in data :: ShownValue(k, data[k], loads)
  {
    var fields := ["height", "fee", "value", "rate", "fmv", "heights"];
    shown := data;
    var i := 0;
    while i < |fields|
      invariant 0 <= i <= |fields|
      invariant shown.Keys == data.Keys
      invariant forall k :: k in shown ==> shown[k] == (if k in fields[..i] then ShownValue(k, data[k], loads) else data[k])
    {
      var f := fields[i];
      if f in shown && Truthy(shown[f]) {
        shown := shown[f := ShownValue(f, shown[f], loads)];
      }
      assert fields[..i + 1] == fields[..i] + [f];
      i := i + 1;
    }
    assert forall k :: k in data && k !in fields ==> ShownValue(k, data[k], loads) == data[k];
  }

  /** Storing and showing again gives back validated data that carries no
      heights, for a JSON codec whose decoder inverts its (never empty)
      encoding. Stored heights raise instead: see `StoredHeightsRaise`. */
  lemma StorageRoundTrip(data: Data, dumps: Json -> string, loads: string -> Option<Json>)
    requires WellTyped(data)
    requires forall j :: dumps(j) != "" && loads(dumps(j)) == Some(j)
    ensures ("heights" !in data || data["heights"].Null?) ==> ToRepresentation(ToStorage(data, dumps), loads) == Some(data)
  {
    if "heights" !in data || data["heights"].Null? {
      RoundTripExceptHeights(data, dumps, loads, true);
    }
  }

  /** The round trip through either reading of `heights`, for the fields
      other than a stored `heights`. */
  lemma RoundTripExceptHeights(data: Data, dumps: Json -> string, loads: string -> Option<Json>, heightsAsList: bool)
    requires WellTyped(data)
    requires forall j :: dumps(j) != "" && loads(dumps(j)) == Some(j)
    requires heightsAsList ==> "heights" !in data || data["heights"].Null?
    ensures Shown(ToStorage(data, dumps), loads, heightsAsList) == Some(data)
  {
    var stored := ToStorage(data, dumps);
    forall k | k in stored
      ensures FieldShown(k, stored[k], heightsAsList).Some?
      ensures ShownValue(k, FieldShown(k, stored[k], heightsAsList).value, loads) == data[k]
    {
      assert stored[k] == StoredValue(k, data[k], dumps);
      FieldRoundTrip(k, data[k], dumps, loads, heightsAsList);
    }
    var d := map k | k in stored :: FieldShown(k, stored[k], heightsAsList).value;
    DeclaredOf(stored, d, heightsAsList);
    assert d.Keys == data.Keys;
    assert (map k | k in d :: ShownValue(k, d[k], loads)) == data;
  }

  /** One field through storage and back. */
  lemma FieldRoundTrip(k: string, v: Value, dumps: Json -> string, loads: string -> Option<Json>, heightsAsList: bool)
    requires k in IntFields ==> v.Null? || v.Int?
    requires k in JsonFields ==> v.Null? || v.Doc?
    requires heightsAsList && k == "heights" ==> v.Null?
    requires forall j :: dumps(j) != "" && loads(dumps(j)) == Some(j)
    ensures FieldShown(k, StoredValue(k, v, dumps), heightsAsList).Some?
    ensures ShownValue(k, FieldShown(k, StoredValue(k, v, dumps), heightsAsList).value, loads) == v
  {
    FieldNames(k);
    if k in IntFields && v.Int? {
      IntRoundTrip(k, v.i, loads, heightsAsList);
    } else if k in JsonFields && v.Doc? {
      JsonRoundTrip(k, v.j, dumps, loads, heightsAsList);
    }
  }

  /** An integer through `str()` and the field's `int()`. */
  lemma IntRoundTrip(k: string, i: int, loads: string -> Option<Json>, heightsAsList: bool)
    requires k in IntFields
    ensures FieldShown(k, Str(IntToString(i)), heightsAsList) == Some(Int(i))
    ensures ShownValue(k, Int(i), loads) == Int(i)
  {
    IntFieldConversion(k, Str(IntToString(i)), heightsAsList);
    IntToStringRoundTrip(i);
    IntShownAgain(k, i, loads);
  }

  /** A JSON document through `json.dumps` and `json.loads`. */
  lemma JsonRoundTrip(k: string, j: Json, dumps: Json -> string, loads: string -> Option<Json>, heightsAsList: bool)
    requires k in JsonFields && !(heightsAsList && k == "heights")
    requires dumps(j) != "" && loads(dumps(j)) == Some(j)
    ensures FieldShown(k, Str(dumps(j)), heightsAsList) == Some(Str(dumps(j)))
    ensures ShownValue(k, Str(dumps(j)), loads) == Doc(j)
  {
    FieldNames(k);
  }

  /** A label with heights, once stored, cannot be shown: `json.dumps` of
      the list starts with '[', and iterating that text hands '[' to `int()`. */
  lemma StoredHeightsRaise(data: Data, dumps: Json -> string, loads: string -> Option<Json>)
    requires WellTyped(data)
    requires "heights" in data && !data["heights"].Null?
    requires forall items :: |dumps(JArray(items))| > 0 && dumps(JArray(items))[0] == '['
    ensures ToRepresentation(ToStorage(data, dumps), loads).None?
  {
    var stored := ToStorage(data, dumps);
    FieldNames("heights");
    assert stored["heights"] == Str(dumps(data["heights"].j));
    HeightsTextRaises(stored, loads, 0);
  }

  /** The heights 800000 as `create` stores them cannot be shown. */
  lemma StoredHeightsExample(loads: string -> Option<Json>)
    ensures ToRepresentation(map["type" := Str("addr"), "heights" := Str("[800000]")], loads).None?
  {
    var stored := map["type" := Str("addr"), "heights" := Str("[800000]")];
    assert stored["heights"].s[0] == '[';
    HeightsTextRaises(stored, loads, 0);
  }

  /** `to_representation` with `heights` read as the JSON field it is stored
      as, like `rate` and `fmv`. */
  function ToRepresentationCorrected(stored: Data, loads: string -> Option<Json>): (r: Option<Data>)
    ensures r.Some? ==> r.value.Keys == stored.Keys
    ensures r.Some? && "heights" in stored && stored["heights"].Str? && stored["heights"].s != "" ==>
      r.value["heights"] == (match loads(stored["heights"].s) case Some(j) => Doc(j) case None => Null)
  {
    Shown(stored, loads, false)
  }

  /** With heights read as JSON, every validated label comes back from
      storage unchanged, heights included. */
  lemma StorageRoundTripCorrected(data: Data, dumps: Json -> string, loads: string -> Option<Json>)
    requires WellTyped(data)
    requires forall j :: dumps(j) != "" && loads(dumps(j)) == Some(j)
    ensures ToRepresentationCorrected(ToStorage(data, dumps), loads) == Some(data)
  {
    RoundTripExceptHeights(data, dumps, loads, false);
  }
}
