/** The tagged `encode`/`decode` pair that stores fixture-provider records as JSON. */
module FixtureCodec {
  datatype Result<+T> = Ok(value: T) | Raised

  datatype Atom = Str(text: string) | Other(code: int)

  /** Python values. A record lists its fields in declaration order. */
  datatype Value =
    | Plain(atom: Atom)
    | Time(instant: int)
    | Tuple(items: seq<Value>)
    | List(items: seq<Value>)
    | Dict(entries: seq<Entry>)
    | Record(typeName: string, fields: seq<Entry>)

  datatype Entry = Entry(key: string, value: Value)

  datatype Json = JAtom(atom: Atom) | JList(items: seq<Json>) | JObject(members: seq<Member>)

  datatype Member = Member(key: string, value: Json)

  /** `iso` and `parse` stand for isoformat and fromisoformat; `types` gives each dataclass its field names. */
  datatype Setup = Setup(iso: int -> string, parse: string -> Result<int>, types: map<string, seq<string>>)

  ghost predicate IsoInverse(c: Setup) {
    forall t: int :: c.parse(c.iso(t)) == Ok(t)
  }

  // ------------------------------------------------------------ encode

  function Encode(c: Setup, v: Value): Json
    decreases v, 0
  {
    match v
    case Plain(atom) => JAtom(atom)
    case Time(t) => JObject([Member("datetime", JAtom(Str(c.iso(t))))])
    case Tuple(items) => JObject([Member("tuple", JList(EncodeAll(c, items)))])
    case List(items) => JList(EncodeAll(c, items))
    case Dict(entries) => JObject(EncodeEntries(c, entries))
    case Record(name, fields) =>
      JObject([Member("type", JAtom(Str(name))), Member("fields", JObject(EncodeEntries(c, fields)))])
  }

  function EncodeAll(c: Setup, items: seq<Value>): (js: seq<Json>)
    ensures |js| == |items|
    decreases items, 1
  {
    if items == [] then [] else [Encode(c, items[0])] + EncodeAll(c, items[1..])
  }

  function EncodeEntries(c: Setup, entries: seq<Entry>): (ms: seq<Member>)
    ensures |ms| == |entries| && forall i :: 0 <= i < |ms| ==> ms[i].key == entries[i].key
    decreases entries, 1
  {
    if entries == [] then []
    else [Member(entries[0].key, Encode(c, entries[0].value))] + EncodeEntries(c, entries[1..])
  }

  // ------------------------------------------------------------ decode

  function Keys(members: seq<Member>): set<string> { set i | 0 <= i < |members| :: members[i].key }

  function Find(members: seq<Member>, key: string): (i: nat)
    requires key in Keys(members)
    ensures i < |members| && members[i].key == key
  {
    if members[0].key == key then 0
    else
      assert members == [members[0]] + members[1..];
      assert key in Keys(members[1..]) by {
        var i :| 0 <= i < |members| && members[i].key == key;
        assert members[1..][i - 1].key == key;
      }
      1 + Find(members[1..], key)
  }

  function Chars(text: string): seq<Value> { seq(|text|, i requires 0 <= i < |text| => Plain(Str([text[i]]))) }

  function KeyValues(members: seq<Member>): seq<Value> {
    seq(|members|, i requires 0 <= i < |members| => Plain(Str(members[i].key)))
  }

  function Decode(c: Setup, j: Json): Result<Value>
    decreases j, 0
  {
    match j
    case JList(items) =>
      var all := DecodeAll(c, items);
      if all.Raised? then Raised else Ok(List(all.value))
    case JAtom(atom) => Ok(Plain(atom))
    case JObject(members) =>
      if Keys(members) == {"datetime"} then
        var found := members[Find(members, "datetime")].value;
        if !found.JAtom? || !found.atom.Str? then Raised
        else
          var t := c.parse(found.atom.text);
          if t.Raised? then Raised else Ok(Time(t.value))
      else if Keys(members) == {"tuple"} then
        var found := members[Find(members, "tuple")].value;
        match found
        case JList(items) =>
          var all := DecodeAll(c, items);
          if all.Raised? then Raised else Ok(Tuple(all.value))
        case JObject(inner) => Ok(Tuple(KeyValues(inner)))
        case JAtom(atom) => if atom.Str? then Ok(Tuple(Chars(atom.text))) else Raised
      else if Keys(members) == {"type", "fields"} then
        var name := members[Find(members, "type")].value;
        var fields := members[Find(members, "fields")].value;
        if !name.JAtom? || !name.atom.Str? || name.atom.text !in c.types || !fields.JObject? then Raised
        else
          var entries := DecodeMembers(c, fields.members);
          if entries.Raised? then Raised else Construct(c, name.atom.text, entries.value)
      else
        var entries := DecodeMembers(c, members);
        if entries.Raised? then Raised else Ok(Dict(entries.value))
  }

  function DecodeAll(c: Setup, items: seq<Json>): Result<seq<Value>>
    decreases items, 1
  {
    if items == [] then Ok([])
    else
      var first := Decode(c, items[0]);
      var rest := DecodeAll(c, items[1..]);
      if first.Raised? || rest.Raised? then Raised else Ok([first.value] + rest.value)
  }

  function DecodeMembers(c: Setup, members: seq<Member>): Result<seq<Entry>>
    decreases members, 1
  {
    if members == [] then Ok([])
    else
      var first := Decode(c, members[0].value);
      var rest := DecodeMembers(c, members[1..]);
      if first.Raised? || rest.Raised? then Raised else Ok([Entry(members[0].key, first.value)] + rest.value)
  }

  function Names(entries: seq<Entry>): seq<string> { seq(|entries|, i requires 0 <= i < |entries| => entries[i].key) }

  predicate Unique(names: seq<string>) { forall i, j :: 0 <= i < j < |names| ==> names[i] != names[j] }

  /** The keyword-argument constructor: exactly the declared fields, in any order. */
  function Construct(c: Setup, name: string, given: seq<Entry>): Result<Value>
    requires name in c.types
  {
    if Names(given) == c.types[name] then Ok(Record(name, given))
    else if |given| == |c.types[name]| && forall k :: 0 <= k < |c.types[name]| ==> c.types[name][k] in Names(given) then
      Ok(Record(name, seq(|c.types[name]|, k requires 0 <= k < |c.types[name]| =>
        Pick(given, c.types[name][k]))))
    else Raised
  }

  function Pick(given: seq<Entry>, key: string): Entry {
    if given == [] then Entry(key, Plain(Other(0))) else if given[0].key == key then given[0] else Pick(given[1..], key)
  }

  // ------------------------------------------------------------ the round trip

  const TAGS: set<set<string>> := {{"datetime"}, {"tuple"}, {"type", "fields"}}

  /** A value the type system allows: dictionary keys differ, records carry their declared fields. */
  predicate Typed(c: Setup, v: Value)
    decreases v, 0
  {
    match v
    case Tuple(items) => forall i :: 0 <= i < |items| ==> Typed(c, items[i])
    case List(items) => forall i :: 0 <= i < |items| ==> Typed(c, items[i])
    case Dict(entries) => Unique(Names(entries)) && TypedEntries(c, entries)
    case Record(name, fields) => name in c.types && Names(fields) == c.types[name] && TypedEntries(c, fields)
    case _ => true
  }

  predicate TypedEntries(c: Setup, entries: seq<Entry>)
    decreases entries, 1
  {
    forall i :: 0 <= i < |entries| ==> Typed(c, entries[i].value)
  }

  function EntryKeys(entries: seq<Entry>): set<string> { set i | 0 <= i < |entries| :: entries[i].key }

  /** No plain dictionary anywhere has the key set of a tag. Record fields may. */
  predicate Untagged(v: Value)
    decreases v, 0
  {
    match v
    case Tuple(items) => forall i :: 0 <= i < |items| ==> Untagged(items[i])
    case List(items) => forall i :: 0 <= i < |items| ==> Untagged(items[i])
    case Dict(entries) => EntryKeys(entries) !in TAGS && UntaggedEntries(entries)
    case Record(_, fields) => UntaggedEntries(fields)
    case _ => true
  }

  predicate UntaggedEntries(entries: seq<Entry>)
    decreases entries, 1
  {
    forall i :: 0 <= i < |entries| ==> Untagged(entries[i].value)
  }

  lemma {:induction false} ItemsRoundTrip(c: Setup, items: seq<Value>)
    requires IsoInverse(c) && forall i :: 0 <= i < |items| ==> Typed(c, items[i])
    ensures DecodeAll(c, EncodeAll(c, items)) == Ok(items) <==> forall i :: 0 <= i < |items| ==> Untagged(items[i])
    decreases items, 1
  {
    if items != [] {
      RoundTrip(c, items[0]);
      ItemsRoundTrip(c, items[1..]);
      var js := EncodeAll(c, items);
      assert js[0] == Encode(c, items[0]) && js[1..] == EncodeAll(c, items[1..]);
      assert items == [items[0]] + items[1..];
      assert (forall i :: 0 <= i < |items| ==> Untagged(items[i])) <==>
             Untagged(items[0]) && forall i :: 0 <= i < |items[1..]| ==> Untagged(items[1..][i]);
    }
  }

  lemma {:induction false} EntriesRoundTrip(c: Setup, entries: seq<Entry>)
    requires IsoInverse(c) && TypedEntries(c, entries)
    ensures DecodeMembers(c, EncodeEntries(c, entries)) == Ok(entries) <==> UntaggedEntries(entries)
    decreases entries, 1
  {
    if entries != [] {
      RoundTrip(c, entries[0].value);
      EntriesRoundTrip(c, entries[1..]);
      var ms := EncodeEntries(c, entries);
      assert ms[1..] == EncodeEntries(c, entries[1..]);
      assert entries == [entries[0]] + entries[1..];
      assert UntaggedEntries(entries) <==> Untagged(entries[0].value) && UntaggedEntries(entries[1..]);
    }
  }

  lemma {:induction false} DecodedNames(c: Setup, ms: seq<Member>)
    ensures var back := DecodeMembers(c, ms);
            back.Ok? ==> |back.value| == |ms| && forall i :: 0 <= i < |ms| ==> back.value[i].key == ms[i].key
    decreases |ms|
  {
    if ms != [] { DecodedNames(c, ms[1..]); }
  }

  lemma EncodedKeys(c: Setup, entries: seq<Entry>)
    ensures Keys(EncodeEntries(c, entries)) == EntryKeys(entries)
  {
    var ms := EncodeEntries(c, entries);
    assert forall k :: k in Keys(ms) ==> k in EntryKeys(entries);
    forall k | k in EntryKeys(entries) ensures k in Keys(ms) {
      var i :| 0 <= i < |entries| && entries[i].key == k;
      assert ms[i].key == k;
    }
  }

  /** Decoding an encoded value gives it back exactly when no plain dictionary inside it looks like a tag. */
  lemma {:induction false} RoundTrip(c: Setup, v: Value)
    requires IsoInverse(c) && Typed(c, v)
    ensures Decode(c, Encode(c, v)) == Ok(v) <==> Untagged(v)
    decreases v, 0
  {
    match v
    case Plain(_) =>
    case Time(t) =>
      var ms := [Member("datetime", JAtom(Str(c.iso(t))))];
      assert Keys(ms) == {"datetime"} by { assert ms[0].key == "datetime"; }
    case Tuple(items) =>
      ItemsRoundTrip(c, items);
      var ms := [Member("tuple", JList(EncodeAll(c, items)))];
      assert Keys(ms) == {"tuple"} by { assert ms[0].key == "tuple"; }
      assert "datetime" !in Keys(ms);
    case List(items) => ItemsRoundTrip(c, items);
    case Dict(entries) =>
      EntriesRoundTrip(c, entries);
      EncodedKeys(c, entries);
    case Record(name, fields) => RecordRoundTrip(c, name, fields);
  }

  lemma {:induction false} RecordRoundTrip(c: Setup, name: string, fields: seq<Entry>)
    requires IsoInverse(c) && Typed(c, Record(name, fields))
    ensures Decode(c, Encode(c, Record(name, fields))) == Ok(Record(name, fields)) <==> UntaggedEntries(fields)
    decreases fields, 2
  {
    EntriesRoundTrip(c, fields);
    DecodedNames(c, EncodeEntries(c, fields));
    var back := DecodeMembers(c, EncodeEntries(c, fields));
    if back.Ok? { assert Names(back.value) == Names(fields); }
    var ms := [Member("type", JAtom(Str(name))), Member("fields", JObject(EncodeEntries(c, fields)))];
    assert Keys(ms) == {"type", "fields"} by {
      assert ms[0].key == "type" && ms[1].key == "fields";
    }
    assert "type" in Keys(ms) && "type" !in {"datetime"} && "type" !in {"tuple"};
    assert Find(ms, "type") == 0 && Find(ms, "fields") == 1;
  }

  /** Hence no two distinct untagged values are stored as the same JSON. */
  lemma EncodeIsInjective(c: Setup, a: Value, b: Value)
    requires IsoInverse(c) && Typed(c, a) && Typed(c, b) && Untagged(a) && Untagged(b)
    requires Encode(c, a) == Encode(c, b)
    ensures a == b
  {
    RoundTrip(c, a);
    RoundTrip(c, b);
  }

  /** A dictionary whose only key is "datetime" is the smallest value that does not survive. */
  lemma TaggedDictIsLost(c: Setup, text: string)
    ensures Decode(c, Encode(c, Dict([Entry("datetime", Plain(Str(text)))]))) != Ok(Dict([Entry("datetime", Plain(Str(text)))]))
  {
    var entries := [Entry("datetime", Plain(Str(text)))];
    EncodedKeys(c, entries);
    assert entries[0].key == "datetime";
    assert EntryKeys(entries) == {"datetime"};
  }

  // ------------------------------------------------------------ the stored form, by positions

  /** `j` is the JSON form of `v`: a tag for each typed value, elements and members in order. */
  ghost predicate StoredAs(c: Setup, v: Value, j: Json)
    decreases v, 0
  {
    match v
    case Plain(atom) => j == JAtom(atom)
    case Time(t) => j == JObject([Member("datetime", JAtom(Str(c.iso(t))))])
    case Tuple(items) => exists stored :: j == JObject([Member("tuple", JList(stored))]) && AllStored(c, items, stored)
    case List(items) => j.JList? && AllStored(c, items, j.items)
    case Dict(entries) => j.JObject? && EntriesStored(c, entries, j.members)
    case Record(name, fields) =>
      exists stored :: j == JObject([Member("type", JAtom(Str(name))), Member("fields", JObject(stored))]) && EntriesStored(c, fields, stored)
  }

  ghost predicate AllStored(c: Setup, items: seq<Value>, stored: seq<Json>)
    decreases items, 1
  {
    |stored| == |items| && forall i :: 0 <= i < |items| ==> StoredAs(c, items[i], stored[i])
  }

  ghost predicate EntriesStored(c: Setup, entries: seq<Entry>, stored: seq<Member>)
    decreases entries, 1
  {
    |stored| == |entries| && forall i :: 0 <= i < |entries| ==> stored[i].key == entries[i].key && StoredAs(c, entries[i].value, stored[i].value)
  }

  lemma {:induction false} EncodeStores(c: Setup, v: Value)
    ensures StoredAs(c, v, Encode(c, v))
    decreases v, 0
  {
    match v
    case Tuple(items) => ItemsStored(c, items);
    case List(items) => ItemsStored(c, items);
    case Dict(entries) => MembersStored(c, entries);
    case Record(_, fields) => MembersStored(c, fields);
    case _ =>
  }

  lemma {:induction false} ItemsStored(c: Setup, items: seq<Value>)
    ensures AllStored(c, items, EncodeAll(c, items))
    decreases items, 1
  {
    if items != [] {
      EncodeStores(c, items[0]);
      ItemsStored(c, items[1..]);
      assert forall i :: 0 < i < |items| ==> items[i] == items[1..][i - 1];
    }
  }

  lemma {:induction false} MembersStored(c: Setup, entries: seq<Entry>)
    ensures EntriesStored(c, entries, EncodeEntries(c, entries))
    decreases entries, 1
  {
    if entries != [] {
      EncodeStores(c, entries[0].value);
      MembersStored(c, entries[1..]);
      assert forall i :: 0 < i < |entries| ==> entries[i] == entries[1..][i - 1];
    }
  }
}
