/**
 * Writing a configuration into a commented JSON file
 * (crates/executors/src/mcp_config.rs `update_jsonc_content`,
 * `deep_merge_cst_object`, `serde_json_to_cst_input`): editing the syntax tree
 * must mean the same as replacing the value, and keep the comments.
 */
module Jsonc {
  import opened Wrappers

  /** A number of a `serde_json::Value`: an integer of i64 or u64, or a double. */
  datatype Number = Int(n: int) | Float(x: real)

  /** A `serde_json::Value`; an object's members are in insertion order. */
  datatype Value =
    | Null
    | Bool(b: bool)
    | Num(num: Number)
    | Str(s: string)
    | Arr(items: seq<Value>)
    | Obj(members: seq<Member>)

  datatype Member = Member(key: string, value: Value)

  /** The concrete syntax tree: a property carries the comments that belong to it. */
  datatype Cst =
    | CNull
    | CBool(b: bool)
    | CNum(num: Number)
    | CStr(s: string)
    | CArr(items: seq<Cst>)
    | CObj(props: seq<Prop>)

  datatype Prop = Prop(name: string, comments: string, value: Cst)

  /** What either means; an object is a map from names to values. */
  datatype Json = JNull | JBool(b: bool) | JNum(num: Number) | JStr(s: string) | JArr(items: seq<Json>) | JObj(fields: map<string, Json>)

  /** Reads back the text a double is written as. A parameter: double formatting is a library matter. */
  type Reread = Number -> Number

  // ----- meaning -----

  function Meaning(v: Value): Json {
    match v
    case Null => JNull
    case Bool(b) => JBool(b)
    case Num(n) => JNum(n)
    case Str(s) => JStr(s)
    case Arr(items) => JArr(seq(|items|, i requires 0 <= i < |items| => Meaning(items[i])))
    case Obj(members) => JObj(Fields(members))
  }

  function Fields(members: seq<Member>): map<string, Json> {
    if members == [] then map[]
    else map[members[0].key := Meaning(members[0].value)] + Fields(members[1..])
  }

  function CstMeaning(c: Cst): Json {
    match c
    case CNull => JNull
    case CBool(b) => JBool(b)
    case CNum(n) => JNum(n)
    case CStr(s) => JStr(s)
    case CArr(items) => JArr(seq(|items|, i requires 0 <= i < |items| => CstMeaning(items[i])))
    case CObj(props) => JObj(CstFields(props))
  }

  /** A parser keeps the last of several properties with one name. */
  function CstFields(props: seq<Prop>): map<string, Json> {
    if props == [] then map[]
    else map[props[0].name := CstMeaning(props[0].value)] + CstFields(props[1..])
  }

  function Keys(members: seq<Member>): set<string> {
    set i | 0 <= i < |members| :: members[i].key
  }

  /** A `serde_json::Map` has each key once, at every depth. */
  predicate WellFormed(v: Value) {
    match v
    case Arr(items) => forall i | 0 <= i < |items| :: WellFormed(items[i])
    case Obj(members) => WellFormedMembers(members)
    case _ => true
  }

  predicate WellFormedMembers(members: seq<Member>) {
    && (forall i, j | 0 <= i < j < |members| :: members[i].key != members[j].key)
    && (forall i | 0 <= i < |members| :: WellFormed(members[i].value))
  }

  /** Objects with unique names at every depth (RFC 8259, section 4). */
  predicate UniqueNames(props: seq<Prop>) {
    && (forall i, j | 0 <= i < j < |props| :: props[i].name != props[j].name)
    && (forall i | 0 <= i < |props| && props[i].value.CObj? :: UniqueNames(props[i].value.props))
  }

  // ----- specification of the edit -----

  /** `serde_json_to_cst_input`: an i64 is written as an integer, any other number as a double. */
  function NumberText(n: Number, reread: Reread): Number {
    if n.Int? && -0x8000_0000_0000_0000 <= n.n < 0x8000_0000_0000_0000 then n else reread(n)
  }

  function ToCst(v: Value, reread: Reread): Cst {
    match v
    case Null => CNull
    case Bool(b) => CBool(b)
    case Num(n) => CNum(NumberText(n, reread))
    case Str(s) => CStr(s)
    case Arr(items) => CArr(seq(|items|, i requires 0 <= i < |items| => ToCst(items[i], reread)))
    case Obj(members) => CObj(NewProps(members, reread))
  }

  function NewProps(members: seq<Member>, reread: Reread): seq<Prop> {
    if members == [] then []
    else [Prop(members[0].key, "", ToCst(members[0].value, reread))] + NewProps(members[1..], reread)
  }

  /** `cst_obj.get`: the first property of that name. */
  function Find(props: seq<Prop>, name: string): (r: Option<nat>)
    ensures r.Some? ==> r.value < |props| && props[r.value].name == name
                        && forall i | 0 <= i < r.value :: props[i].name != name
    ensures r.None? <==> forall i | 0 <= i < |props| :: props[i].name != name
  {
    if props == [] then None
    else if props[0].name == name then Some(0)
    else
      match Find(props[1..], name)
      case None => None
      case Some(i) => assert props[1..][i] == props[i + 1]; Some(i + 1)
  }

  function RemoveOthers(props: seq<Prop>, keys: set<string>): seq<Prop> {
    if props == [] then []
    else (if props[0].name in keys then [props[0]] else []) + RemoveOthers(props[1..], keys)
  }

  function SetAll(props: seq<Prop>, members: seq<Member>, reread: Reread): seq<Prop>
    decreases members, 1
  {
    if members == [] then props
    else SetAll(SetOne(props, members[0], reread), members[1..], reread)
  }

  function SetOne(props: seq<Prop>, m: Member, reread: Reread): seq<Prop>
    decreases m, 1
  {
    match Find(props, m.key)
    case None => props + [Prop(m.key, "", ToCst(m.value, reread))]
    case Some(i) => props[i := props[i].(value := MergeValue(props[i].value, m.value, reread))]
  }

  /** Two objects are merged; anything else is replaced. */
  function MergeValue(old_: Cst, new_: Value, reread: Reread): Cst
    decreases new_, 1
  {
    if old_.CObj? && new_.Obj? then CObj(Merge(old_.props, new_.members, reread)) else ToCst(new_, reread)
  }

  function Merge(props: seq<Prop>, members: seq<Member>, reread: Reread): seq<Prop>
    decreases members, 2
  {
    SetAll(RemoveOthers(props, Keys(members)), members, reread)
  }

  // ----- the edit -----

  lemma {:induction false} RemoveOthersAppend(a: seq<Prop>, b: seq<Prop>, keys: set<string>)
    ensures RemoveOthers(a + b, keys) == RemoveOthers(a, keys) + RemoveOthers(b, keys)
  {
    if a == [] {
      assert a + b == b;
    } else {
      assert (a + b)[1..] == a[1..] + b;
      RemoveOthersAppend(a[1..], b, keys);
      Assoc(if a[0].name in keys then [a[0]] else [], RemoveOthers(a[1..], keys), RemoveOthers(b, keys));
    }
  }

  lemma {:induction false} RemoveOthersNames(props: seq<Prop>, keys: set<string>)
    ensures forall i | 0 <= i < |RemoveOthers(props, keys)| :: RemoveOthers(props, keys)[i].name in keys
  {
    if props != [] { RemoveOthersNames(props[1..], keys); }
  }

  lemma StaleStep(props: seq<Prop>, i: nat, keys: set<string>)
    requires i < |props|
    ensures var done := RemoveOthers(props[..i], keys);
            && RemoveOthers(props[..i + 1], keys) == done + (if props[i].name in keys then [props[i]] else [])
            && (props[i].name !in keys ==> Find(done + props[i..], props[i].name) == Some(|done|))
  {
    var done := RemoveOthers(props[..i], keys);
    assert props[..i + 1] == props[..i] + [props[i]];
    RemoveOthersAppend(props[..i], [props[i]], keys);
    RemoveOthersNames(props[..i], keys);
    var all := done + props[i..];
    assert all[|done|] == props[i] && forall j | 0 <= j < |done| :: all[j] == done[j];
  }

  /** Removes each existing property whose name is not among the new keys. */
  method RemoveStale(props: seq<Prop>, keys: set<string>) returns (out: seq<Prop>)
    ensures out == RemoveOthers(props, keys)
  {
    out := props;
    for i := 0 to |props|
      invariant out == RemoveOthers(props[..i], keys) + props[i..]
    {
      StaleStep(props, i, keys);
      if props[i].name !in keys {
        var found := Find(out, props[i].name);
        if found.Some? {
          out := out[..found.value] + out[found.value + 1..];
        }
      }
    }
    assert props[..|props|] == props;
  }

  method SetMember(props: seq<Prop>, m: Member, reread: Reread) returns (out: seq<Prop>)
    ensures out == SetOne(props, m, reread)
    decreases m, 1
  {
    match Find(props, m.key)
    case Some(k) =>
      if props[k].value.CObj? && m.value.Obj? {
        var inner := DeepMerge(props[k].value.props, m.value.members, reread);
        out := props[k := props[k].(value := CObj(inner))];
      } else {
        out := props[k := props[k].(value := ToCst(m.value, reread))];
      }
    case None =>
      out := props + [Prop(m.key, "", ToCst(m.value, reread))];
  }

  /**
   * The recursive edit: drop the properties that are gone, then set or append
   * each member. It terminates on the nesting depth of the new object.
   */
  method DeepMerge(props: seq<Prop>, members: seq<Member>, reread: Reread) returns (out: seq<Prop>)
    ensures out == Merge(props, members, reread)
    decreases members, 2
  {
    out := RemoveStale(props, Keys(members));
    assert members[0..] == members;
    for i := 0 to |members|
      invariant SetAll(out, members[i..], reread) == Merge(props, members, reread)
    {
      SetAllStep(out, members[i..], reread);
      assert members[i..][1..] == members[i + 1..];
      out := SetMember(out, members[i], reread);
    }
  }

  lemma SetAllStep(props: seq<Prop>, members: seq<Member>, reread: Reread)
    requires members != []
    ensures SetAll(props, members, reread) == SetAll(SetOne(props, members[0], reread), members[1..], reread)
  {
  }

  /** `update_jsonc_content`: a file that does not parse, or is not an object, starts from `{}`. */
  method UpdateContent(parsed: Option<Cst>, config: Value, reread: Reread) returns (root: seq<Prop>)
    ensures var start := if parsed.Some? && parsed.value.CObj? then parsed.value.props else [];
            root == if config.Obj? then Merge(start, config.members, reread) else start
  {
    root := if parsed.Some? && parsed.value.CObj? then parsed.value.props else [];
    if config.Obj? {
      root := DeepMerge(root, config.members, reread);
    }
  }

  // ----- the new value as it is written -----

  /** The new value with each number as it will be read back. */
  function Written(v: Value, reread: Reread): Value {
    match v
    case Num(n) => Num(NumberText(n, reread))
    case Arr(items) => Arr(seq(|items|, i requires 0 <= i < |items| => Written(items[i], reread)))
    case Obj(members) => Obj(WrittenMembers(members, reread))
    case _ => v
  }

  function WrittenMembers(members: seq<Member>, reread: Reread): (r: seq<Member>)
    ensures |r| == |members|
    ensures forall i | 0 <= i < |r| :: r[i].key == members[i].key
  {
    if members == [] then []
    else [Member(members[0].key, Written(members[0].value, reread))] + WrittenMembers(members[1..], reread)
  }

  /** Every number is an integer from -2^63 to 2^63 - 1, or is equal to what a double written for it reads as. */
  predicate NumbersSurvive(v: Value, reread: Reread) {
    match v
    case Num(n) => (n.Int? && -9_223_372_036_854_775_808 <= n.n <= 9_223_372_036_854_775_807) || reread(n) == n
    case Arr(items) => forall i | 0 <= i < |items| :: NumbersSurvive(items[i], reread)
    case Obj(members) => forall i | 0 <= i < |members| :: NumbersSurvive(members[i].value, reread)
    case _ => true
  }

  /** Every number is an integer from -2^63 to 2^63 - 1. */
  predicate OnlyI64(v: Value) {
    match v
    case Num(n) => n.Int? && -9_223_372_036_854_775_808 <= n.n <= 9_223_372_036_854_775_807
    case Arr(items) => forall i | 0 <= i < |items| :: OnlyI64(items[i])
    case Obj(members) => forall i | 0 <= i < |members| :: OnlyI64(members[i].value)
    case _ => true
  }

  lemma {:induction false} I64Survives(v: Value, reread: Reread)
    requires OnlyI64(v)
    ensures NumbersSurvive(v, reread)
  {
    match v
    case Arr(items) => forall i | 0 <= i < |items| ensures NumbersSurvive(items[i], reread) { I64Survives(items[i], reread); }
    case Obj(members) =>
      forall i | 0 <= i < |members| ensures NumbersSurvive(members[i].value, reread) { I64Survives(members[i].value, reread); }
    case _ =>
  }

  /** A number is written as it is if it is such an integer, and else as a double. */
  lemma NumberIsWritten(n: Number, reread: Reread)
    ensures CstMeaning(ToCst(Num(n), reread)) ==
              JNum(if n.Int? && -9_223_372_036_854_775_808 <= n.n <= 9_223_372_036_854_775_807 then n else reread(n))
  {
  }

  // ----- looking a property up after the edit -----

  function Get(props: seq<Prop>, name: string): Option<Prop> {
    match Find(props, name)
    case None => None
    case Some(i) => Some(props[i])
  }

  lemma GetAppend(a: seq<Prop>, b: seq<Prop>, name: string)
    ensures Get(a + b, name) == if Get(a, name).Some? then Get(a, name) else Get(b, name)
  {
    var all := a + b;
    assert forall i | 0 <= i < |a| :: all[i] == a[i];
    assert forall i | 0 <= i < |b| :: all[|a| + i] == b[i];
    if Get(all, name).Some? {
      var k := Find(all, name).value;
      assert k < |a| ==> a[k].name == name;
      assert k >= |a| ==> b[k - |a|].name == name;
    }
  }

  lemma {:induction false} GetAfterRemove(props: seq<Prop>, keys: set<string>, name: string)
    ensures Get(RemoveOthers(props, keys), name) == if name in keys then Get(props, name) else None
  {
    if props != [] {
      GetAfterRemove(props[1..], keys, name);
      assert props == [props[0]] + props[1..];
      GetAppend([props[0]], props[1..], name);
      GetAppend(if props[0].name in keys then [props[0]] else [], RemoveOthers(props[1..], keys), name);
    }
  }

  /** The property a member leads to, given the one that was there. */
  function Updated(p: Option<Prop>, m: Member, reread: Reread): Prop {
    match p
    case None => Prop(m.key, "", ToCst(m.value, reread))
    case Some(p) => p.(value := MergeValue(p.value, m.value, reread))
  }

  lemma GetAfterSetOne(props: seq<Prop>, m: Member, reread: Reread, name: string)
    ensures Get(SetOne(props, m, reread), name) ==
              if name == m.key then Some(Updated(Get(props, name), m, reread)) else Get(props, name)
  {
    var out := SetOne(props, m, reread);
    match Find(props, m.key)
    case None => GetAppend(props, [Prop(m.key, "", ToCst(m.value, reread))], name);
    case Some(k) =>
      assert |out| == |props| && forall i | 0 <= i < |props| :: out[i].name == props[i].name && (i != k ==> out[i] == props[i]);
  }

  lemma {:induction false} GetAfterSetAll(props: seq<Prop>, members: seq<Member>, reread: Reread, name: string)
    requires forall i, j | 0 <= i < j < |members| :: members[i].key != members[j].key
    ensures name !in Keys(members) ==> Get(SetAll(props, members, reread), name) == Get(props, name)
    ensures forall i | 0 <= i < |members| && members[i].key == name ::
              Get(SetAll(props, members, reread), name) == Some(Updated(Get(props, name), members[i], reread))
    decreases |members|
  {
    if members != [] {
      GetAfterSetOne(props, members[0], reread, name);
      GetAfterSetAll(SetOne(props, members[0], reread), members[1..], reread, name);
      assert forall i | 1 <= i < |members| :: members[i] == members[1..][i - 1];
      assert members[0].key !in Keys(members[1..]);
    }
  }

  /**
   * Each member of the new object is found as the old property with its value
   * merged or replaced, and everything else is gone. Duplicate names are allowed.
   */
  lemma GetAfterMerge(props: seq<Prop>, members: seq<Member>, reread: Reread, name: string)
    requires WellFormedMembers(members)
    ensures name !in Keys(members) ==> Get(Merge(props, members, reread), name) == None
    ensures forall i | 0 <= i < |members| && members[i].key == name ::
              Get(Merge(props, members, reread), name) == Some(Updated(Get(props, name), members[i], reread))
  {
    GetAfterRemove(props, Keys(members), name);
    GetAfterSetAll(RemoveOthers(props, Keys(members)), members, reread, name);
  }

  // ----- comments -----

  /** The comments at the property a path of names leads to. */
  function CommentsAt(props: seq<Prop>, path: seq<string>): Option<string>
    requires path != []
    decreases |path|
  {
    match Get(props, path[0])
    case None => None
    case Some(p) =>
      if |path| == 1 then Some(p.comments)
      else if p.value.CObj? then CommentsAt(p.value.props, path[1..])
      else None
  }

  function Lookup(members: seq<Member>, key: string): (r: Option<Value>)
    ensures r.Some? ==> exists i :: 0 <= i < |members| && members[i] == Member(key, r.value)
    ensures r.None? ==> key !in Keys(members)
  {
    if members == [] then None
    else if members[0].key == key then Some(members[0].value)
    else
      var r := Lookup(members[1..], key);
      assert forall i | 1 <= i < |members| :: members[i] == members[1..][i - 1];
      r
  }

  /** The path leads to a property before the edit, and through objects of the new value to one of its members. */
  predicate Survives(props: seq<Prop>, members: seq<Member>, path: seq<string>)
    requires path != []
    decreases |path|
  {
    var p, v := Get(props, path[0]), Lookup(members, path[0]);
    p.Some? && v.Some? &&
    (|path| > 1 ==> p.value.value.CObj? && v.value.Obj? && Survives(p.value.value.props, v.value.members, path[1..]))
  }

  /** Comments are kept at every depth, on every property whose path survives. */
  lemma {:induction false} CommentsAreKept(props: seq<Prop>, members: seq<Member>, reread: Reread, path: seq<string>)
    requires WellFormedMembers(members) && path != [] && Survives(props, members, path)
    ensures CommentsAt(props, path).Some?
    ensures CommentsAt(Merge(props, members, reread), path) == CommentsAt(props, path)
    decreases |path|
  {
    GetAfterMerge(props, members, reread, path[0]);
    var v := Lookup(members, path[0]).value;
    var i :| 0 <= i < |members| && members[i] == Member(path[0], v);
    if |path| > 1 {
      CommentsAreKept(Get(props, path[0]).value.value.props, v.members, reread, path[1..]);
    }
  }

  function NameList(props: seq<Prop>): seq<string> {
    seq(|props|, i requires 0 <= i < |props| => props[i].name)
  }

  /** The keys no property has, in the order of the new object. */
  function NewKeys(members: seq<Member>, props: seq<Prop>): seq<string> {
    if members == [] then []
    else (if Find(props, members[0].key).None? then [members[0].key] else []) + NewKeys(members[1..], props)
  }

  lemma {:induction false} NewKeysSame(members: seq<Member>, props: seq<Prop>, more: seq<Prop>)
    requires forall i | 0 <= i < |members| :: Find(more, members[i].key).None? <==> Find(props, members[i].key).None?
    ensures NewKeys(members, more) == NewKeys(members, props)
  {
    if members != [] {
      assert forall i | 0 <= i < |members[1..]| :: members[1..][i] == members[i + 1];
      NewKeysSame(members[1..], props, more);
    }
  }

  lemma {:induction false} OrderAfterSetAll(props: seq<Prop>, members: seq<Member>, reread: Reread)
    requires forall i, j | 0 <= i < j < |members| :: members[i].key != members[j].key
    ensures NameList(SetAll(props, members, reread)) == NameList(props) + NewKeys(members, props)
    decreases |members|
  {
    if members != [] {
      var next := SetOne(props, members[0], reread);
      OrderAfterSetAll(next, members[1..], reread);
      NewKeysAfterSetOne(props, members, reread);
      NamesAfterSetOne(props, members[0], reread);
      Assoc(NameList(props), if Find(props, members[0].key).None? then [members[0].key] else [], NewKeys(members[1..], props));
    }
  }

  lemma NewKeysAfterSetOne(props: seq<Prop>, members: seq<Member>, reread: Reread)
    requires members != [] && forall i, j | 0 <= i < j < |members| :: members[i].key != members[j].key
    ensures NewKeys(members[1..], SetOne(props, members[0], reread)) == NewKeys(members[1..], props)
  {
    var next, rest := SetOne(props, members[0], reread), members[1..];
    forall i | 0 <= i < |rest| ensures Find(next, rest[i].key).None? <==> Find(props, rest[i].key).None? {
      assert rest[i] == members[i + 1];
      GetAfterSetOne(props, members[0], reread, rest[i].key);
    }
    NewKeysSame(rest, props, next);
  }

  lemma NamesAfterSetOne(props: seq<Prop>, m: Member, reread: Reread)
    ensures NameList(SetOne(props, m, reread)) == NameList(props) + if Find(props, m.key).None? then [m.key] else []
  {
  }

  /** The names that are among the keys, in order. */
  function Those(names: seq<string>, keys: set<string>): seq<string> {
    if names == [] then [] else (if names[0] in keys then [names[0]] else []) + Those(names[1..], keys)
  }

  lemma {:induction false} NamesThatStay(props: seq<Prop>, keys: set<string>)
    ensures NameList(RemoveOthers(props, keys)) == Those(NameList(props), keys)
  {
    if props != [] {
      NamesThatStay(props[1..], keys);
      assert NameList(props)[1..] == NameList(props[1..]);
      var first, rest := if props[0].name in keys then [props[0]] else [], RemoveOthers(props[1..], keys);
      assert NameList(first + rest) == NameList(first) + NameList(rest);
    }
  }

  /** The names that stay keep their order, and the new ones follow in theirs. */
  lemma OrderIsKept(props: seq<Prop>, members: seq<Member>, reread: Reread)
    requires WellFormedMembers(members)
    ensures NameList(Merge(props, members, reread)) == Those(NameList(props), Keys(members)) + NewKeys(members, props)
  {
    var stay := RemoveOthers(props, Keys(members));
    OrderAfterSetAll(stay, members, reread);
    NamesThatStay(props, Keys(members));
    forall i | 0 <= i < |members| ensures Find(stay, members[i].key).None? <==> Find(props, members[i].key).None? {
      GetAfterRemove(props, Keys(members), members[i].key);
    }
    NewKeysSame(members, props, stay);
  }

  // ----- meaning -----

  lemma {:induction false} NewPropsMeaning(members: seq<Member>, reread: Reread)
    ensures CstFields(NewProps(members, reread)) == Fields(WrittenMembers(members, reread))
    decreases members, 0
  {
    if members != [] {
      ToCstMeaning(members[0].value, reread);
      NewPropsMeaning(members[1..], reread);
      assert NewProps(members, reread)[1..] == NewProps(members[1..], reread);
      assert WrittenMembers(members, reread)[1..] == WrittenMembers(members[1..], reread);
    }
  }

  lemma {:induction false} ToCstMeaning(v: Value, reread: Reread)
    ensures CstMeaning(ToCst(v, reread)) == Meaning(Written(v, reread))
    decreases v, 1
  {
    match v
    case Arr(items) =>
      forall i | 0 <= i < |items| ensures CstMeaning(ToCst(items[i], reread)) == Meaning(Written(items[i], reread)) {
        ToCstMeaning(items[i], reread);
      }
    case Obj(members) => NewPropsMeaning(members, reread);
    case _ =>
  }

  /** The value of the last property of that name, which is the one a parser keeps. */
  function Last(props: seq<Prop>, name: string): Option<Cst> {
    if props == [] then None
    else if Last(props[1..], name).Some? then Last(props[1..], name)
    else if props[0].name == name then Some(props[0].value)
    else None
  }

  /** Two or more properties have that name. */
  predicate Repeated(props: seq<Prop>, name: string) {
    props != [] && if props[0].name == name then Last(props[1..], name).Some? else Repeated(props[1..], name)
  }

  lemma {:induction false} FieldsByLast(props: seq<Prop>)
    ensures forall n :: n in CstFields(props) <==> Last(props, n).Some?
    ensures forall n | n in CstFields(props) :: CstFields(props)[n] == CstMeaning(Last(props, n).value)
    decreases |props|
  {
    if props != [] { FieldsByLast(props[1..]); }
  }

  lemma {:induction false} LastIfFound(props: seq<Prop>, name: string)
    ensures Last(props, name).Some? <==> Get(props, name).Some?
    ensures !Repeated(props, name) && Get(props, name).Some? ==> Last(props, name) == Some(Get(props, name).value.value)
  {
    if props != [] {
      LastIfFound(props[1..], name);
      GetCons(props[0], props[1..], name);
      assert props == [props[0]] + props[1..];
    }
  }

  lemma GetCons(p: Prop, rest: seq<Prop>, name: string)
    ensures Get([p] + rest, name) == if p.name == name then Some(p) else Get(rest, name)
  {
    GetAppend([p], rest, name);
  }

  lemma LastCons(p: Prop, rest: seq<Prop>, name: string)
    ensures Last([p] + rest, name) == if Last(rest, name).Some? then Last(rest, name) else if p.name == name then Some(p.value) else None
    ensures Repeated([p] + rest, name) == if p.name == name then Last(rest, name).Some? else Repeated(rest, name)
  {
    assert ([p] + rest)[1..] == rest;
  }

  lemma {:induction false} LastAfterRemove(props: seq<Prop>, keys: set<string>, name: string)
    ensures name in keys ==> Last(RemoveOthers(props, keys), name) == Last(props, name)
                             && Repeated(RemoveOthers(props, keys), name) == Repeated(props, name)
    ensures name !in keys ==> Last(RemoveOthers(props, keys), name).None?
  {
    if props != [] {
      var rest := RemoveOthers(props[1..], keys);
      LastAfterRemove(props[1..], keys, name);
      LastCons(props[0], rest, name);
      assert [] + rest == rest;
    }
  }

  lemma SetOneCons(p: Prop, rest: seq<Prop>, m: Member, reread: Reread)
    ensures SetOne([p] + rest, m, reread) == if p.name == m.key then [p.(value := MergeValue(p.value, m.value, reread))] + rest
                                             else [p] + SetOne(rest, m, reread)
  {
    var props := [p] + rest;
    assert props[1..] == rest;
    if p.name != m.key && Find(rest, m.key).None? {
      assert [p] + rest + [Prop(m.key, "", ToCst(m.value, reread))] == [p] + (rest + [Prop(m.key, "", ToCst(m.value, reread))]);
    }
  }

  /** Setting a member changes the first property of its name; if there are more, the last one stays. */
  lemma {:induction false} LastAfterSetOne(props: seq<Prop>, m: Member, reread: Reread, name: string)
    ensures Repeated(SetOne(props, m, reread), name) == Repeated(props, name)
    ensures Last(SetOne(props, m, reread), name) ==
              if name != m.key || Repeated(props, name) then Last(props, name) else Some(Updated(Get(props, name), m, reread).value)
    decreases |props|
  {
    if props == [] {
      LastCons(Prop(m.key, "", ToCst(m.value, reread)), [], name);
    } else {
      var p, rest := props[0], props[1..];
      assert props == [p] + rest;
      SetOneCons(p, rest, m, reread);
      LastAfterSetOne(rest, m, reread, name);
      LastIfFound(rest, name);
      GetCons(p, rest, name);
      LastCons(p, rest, name);
      LastCons(p, SetOne(rest, m, reread), name);
      LastCons(p.(value := MergeValue(p.value, m.value, reread)), rest, name);
    }
  }

  lemma {:induction false} LastAfterSetAll(props: seq<Prop>, members: seq<Member>, reread: Reread, name: string)
    requires forall i, j | 0 <= i < j < |members| :: members[i].key != members[j].key
    ensures name !in Keys(members) ==> Last(SetAll(props, members, reread), name) == Last(props, name)
    ensures forall i | 0 <= i < |members| && members[i].key == name ::
              Last(SetAll(props, members, reread), name) ==
                if Repeated(props, name) then Last(props, name) else Some(Updated(Get(props, name), members[i], reread).value)
    decreases |members|
  {
    if members != [] {
      LastAfterSetOne(props, members[0], reread, name);
      GetAfterSetOne(props, members[0], reread, name);
      LastAfterSetAll(SetOne(props, members[0], reread), members[1..], reread, name);
      assert forall i | 1 <= i < |members| :: members[i] == members[1..][i - 1];
      assert members[0].key !in Keys(members[1..]);
    }
  }

  /** What a parser reads for a member after the edit: the old last value if its name was repeated, else the updated one. */
  lemma LastAfterMerge(props: seq<Prop>, members: seq<Member>, reread: Reread, name: string)
    requires WellFormedMembers(members)
    ensures name !in Keys(members) ==> Last(Merge(props, members, reread), name).None?
    ensures forall i | 0 <= i < |members| && members[i].key == name ::
              Last(Merge(props, members, reread), name) ==
                if Repeated(props, name) then Last(props, name) else Some(Updated(Get(props, name), members[i], reread).value)
  {
    LastAfterRemove(props, Keys(members), name);
    GetAfterRemove(props, Keys(members), name);
    LastAfterSetAll(RemoveOthers(props, Keys(members)), members, reread, name);
  }

  lemma KeysCons(members: seq<Member>)
    requires members != []
    ensures Keys(members) == {members[0].key} + Keys(members[1..])
  {
    forall k | k in Keys(members) ensures k in {members[0].key} + Keys(members[1..]) {
      var i :| 0 <= i < |members| && members[i].key == k;
      if i > 0 { assert members[1..][i - 1].key == k; }
    }
    forall i | 0 <= i < |members[1..]| ensures members[1..][i].key in Keys(members) {
      assert members[1..][i] == members[i + 1];
    }
  }

  lemma {:induction false} FieldsByLookup(members: seq<Member>)
    requires forall i, j | 0 <= i < j < |members| :: members[i].key != members[j].key
    ensures Fields(members).Keys == Keys(members)
    ensures forall i | 0 <= i < |members| :: members[i].key in Fields(members) && Fields(members)[members[i].key] == Meaning(members[i].value)
    decreases |members|
  {
    if members != [] {
      var rest := members[1..];
      FieldsByLookup(rest);
      KeysCons(members);
      forall i | 0 < i < |members|
        ensures members[i].key in Fields(members) && Fields(members)[members[i].key] == Meaning(members[i].value)
      {
        assert members[i] == rest[i - 1];
      }
    }
  }

  // ----- main results -----

  lemma {:induction false} WrittenAt(members: seq<Member>, reread: Reread)
    ensures forall i | 0 <= i < |members| :: WrittenMembers(members, reread)[i] == Member(members[i].key, Written(members[i].value, reread))
    decreases |members|
  {
    if members != [] {
      WrittenAt(members[1..], reread);
      assert forall i | 1 <= i < |members| :: members[i] == members[1..][i - 1];
    }
  }

  /** The fields after the edit are the new object's exactly if every member is read as its value. */
  lemma FieldsAre(out: seq<Prop>, w: seq<Member>)
    requires forall i, j | 0 <= i < j < |w| :: w[i].key != w[j].key
    requires forall n :: Last(out, n).Some? <==> n in Keys(w)
    ensures CstFields(out) == Fields(w) <==> forall i | 0 <= i < |w| :: CstMeaning(Last(out, w[i].key).value) == Meaning(w[i].value)
  {
    FieldsByLast(out);
    FieldsByLookup(w);
    if CstFields(out) == Fields(w) {
      forall i | 0 <= i < |w| ensures CstMeaning(Last(out, w[i].key).value) == Meaning(w[i].value) {
        assert w[i].key in CstFields(out);
      }
    }
    assert CstFields(out).Keys == Fields(w).Keys;
    if forall i | 0 <= i < |w| :: CstMeaning(Last(out, w[i].key).value) == Meaning(w[i].value) {
      forall n | n in CstFields(out) ensures Fields(w)[n] == CstFields(out)[n] {
        var i :| 0 <= i < |w| && w[i].key == n;
      }
    }
  }

  lemma MergeHasTheKeys(props: seq<Prop>, members: seq<Member>, reread: Reread)
    requires WellFormedMembers(members)
    ensures forall n :: Last(Merge(props, members, reread), n).Some? <==> n in Keys(members)
  {
    forall n ensures Last(Merge(props, members, reread), n).Some? <==> n in Keys(members) {
      LastAfterMerge(props, members, reread, n);
      if n in Keys(members) {
        var i :| 0 <= i < |members| && members[i].key == n;
        LastIfFound(props, n);
        if Repeated(props, n) { RepeatedIsFound(props, n); }
      }
    }
  }

  lemma {:induction false} RepeatedIsFound(props: seq<Prop>, name: string)
    requires Repeated(props, name)
    ensures Last(props, name).Some?
  {
    if props[0].name != name { RepeatedIsFound(props[1..], name); }
  }

  // ----- unique names -----

  lemma {:induction false} UniqueIsNotRepeated(props: seq<Prop>, name: string)
    requires UniqueNames(props)
    ensures !Repeated(props, name)
    ensures Get(props, name).Some? && Get(props, name).value.value.CObj? ==> UniqueNames(Get(props, name).value.value.props)
  {
    if props != [] {
      UniqueIsNotRepeated(props[1..], name);
      LastIfFound(props[1..], name);
      assert props == [props[0]] + props[1..];
      GetCons(props[0], props[1..], name);
      assert props[0].value.CObj? ==> UniqueNames(props[0].value.props);
    }
  }

  /** One member after the edit: it means its new value, as written. */
  lemma {:induction false} MemberMeansWritten(p: Option<Prop>, m: Member, reread: Reread)
    requires p.Some? && p.value.value.CObj? ==> UniqueNames(p.value.value.props)
    requires WellFormed(m.value)
    ensures CstMeaning(Updated(p, m, reread).value) == Meaning(Written(m.value, reread))
    decreases m, 1
  {
    if p.Some? && p.value.value.CObj? && m.value.Obj? {
      MergeMeansWritten(p.value.value.props, m.value.members, reread);
    } else {
      ToCstMeaning(m.value, reread);
    }
  }

  /** With unique names the edited tree means the new object, with its numbers as they are written. */
  lemma {:induction false} MergeMeansWritten(props: seq<Prop>, members: seq<Member>, reread: Reread)
    requires UniqueNames(props) && WellFormedMembers(members)
    ensures CstFields(Merge(props, members, reread)) == Fields(WrittenMembers(members, reread))
    decreases members, 0
  {
    var out, w := Merge(props, members, reread), WrittenMembers(members, reread);
    WrittenAt(members, reread);
    MergeHasTheKeys(props, members, reread);
    SameKeys(members, w);
    forall i | 0 <= i < |w| ensures CstMeaning(Last(out, w[i].key).value) == Meaning(w[i].value) {
      var n := members[i].key;
      LastAfterMerge(props, members, reread, n);
      UniqueIsNotRepeated(props, n);
      MemberMeansWritten(Get(props, n), members[i], reread);
    }
    FieldsAre(out, w);
  }

  lemma SameKeys(a: seq<Member>, b: seq<Member>)
    requires |a| == |b| && forall i | 0 <= i < |a| :: a[i].key == b[i].key
    ensures Keys(a) == Keys(b)
  {
  }

  lemma FieldsCons(members: seq<Member>)
    requires members != [] && forall i, j | 0 <= i < j < |members| :: members[i].key != members[j].key
    ensures members[0].key !in Fields(members[1..])
    ensures Fields(members) == Fields(members[1..])[members[0].key := Meaning(members[0].value)]
  {
    FirstKeyIsNew(members);
    FieldsByLookup(members[1..]);
    SingletonPlus(members[0].key, Meaning(members[0].value), Fields(members[1..]));
  }

  lemma FirstKeyIsNew(members: seq<Member>)
    requires members != [] && forall i, j | 0 <= i < j < |members| :: members[i].key != members[j].key
    ensures members[0].key !in Keys(members[1..])
  {
    forall i | 0 <= i < |members[1..]| ensures members[1..][i].key != members[0].key {
      assert members[1..][i] == members[i + 1];
    }
  }

  lemma SingletonPlus<K, V>(k: K, v: V, f: map<K, V>)
    requires k !in f
    ensures map[k := v] + f == f[k := v]
  {
  }

  lemma MapConsEqual<K, V>(f: map<K, V>, g: map<K, V>, k: K, v: V, w: V)
    requires k !in f && k !in g
    ensures f[k := v] == g[k := w] <==> f == g && v == w
  {
    if f[k := v] == g[k := w] {
      assert f[k := v][k] == v;
      forall x | x in f ensures x in g && f[x] == g[x] { assert x in g[k := w] && g[k := w][x] == f[k := v][x]; }
      forall x | x in g ensures x in f { assert x in f[k := v]; }
    }
  }

  lemma {:induction false} FieldsEqualIff(a: seq<Member>, b: seq<Member>)
    requires |a| == |b| && forall i | 0 <= i < |a| :: a[i].key == b[i].key
    requires forall i, j | 0 <= i < j < |a| :: a[i].key != a[j].key
    ensures Fields(a) == Fields(b) <==> forall i | 0 <= i < |a| :: Meaning(a[i].value) == Meaning(b[i].value)
    decreases |a|
  {
    if a != [] {
      FieldsCons(a);
      FieldsCons(b);
      FieldsEqualIff(a[1..], b[1..]);
      MapConsEqual(Fields(a[1..]), Fields(b[1..]), a[0].key, Meaning(a[0].value), Meaning(b[0].value));
      assert forall i | 1 <= i < |a| :: a[i] == a[1..][i - 1] && b[i] == b[1..][i - 1];
    }
  }

  lemma {:induction false} WrittenMeansSame(v: Value, reread: Reread)
    requires WellFormed(v)
    ensures Meaning(Written(v, reread)) == Meaning(v) <==> NumbersSurvive(v, reread)
    decreases v
  {
    match v
    case Arr(items) =>
      forall i | 0 <= i < |items| ensures Meaning(Written(items[i], reread)) == Meaning(items[i]) <==> NumbersSurvive(items[i], reread) {
        WrittenMeansSame(items[i], reread);
      }
      var a, b := Meaning(Written(v, reread)).items, Meaning(v).items;
      assert forall i | 0 <= i < |items| :: a[i] == Meaning(Written(items[i], reread)) && b[i] == Meaning(items[i]);
    case Obj(members) =>
      WrittenAt(members, reread);
      FieldsEqualIff(WrittenMembers(members, reread), members);
      forall i | 0 <= i < |members|
        ensures Meaning(Written(members[i].value, reread)) == Meaning(members[i].value) <==> NumbersSurvive(members[i].value, reread)
      {
        WrittenMeansSame(members[i].value, reread);
      }
    case _ =>
  }

  // ----- any names -----

  /**
   * When the edit gives a member its new value: a repeated name must have the
   * value already, at its last property; two objects must meet the condition
   * inside; and anything else that is written must be read back as it is.
   */
  ghost predicate Replaces(props: seq<Prop>, members: seq<Member>, reread: Reread)
    decreases members, 0
  {
    forall i | 0 <= i < |members| :: MemberReplaces(props, members[i], reread)
  }

  ghost predicate MemberReplaces(props: seq<Prop>, m: Member, reread: Reread)
    decreases m, 1
  {
    var p := Get(props, m.key);
    if Repeated(props, m.key) then Last(props, m.key).Some? && CstMeaning(Last(props, m.key).value) == Meaning(m.value)
    else if p.Some? && p.value.value.CObj? && m.value.Obj? then Replaces(p.value.value.props, m.value.members, reread)
    else NumbersSurvive(m.value, reread)
  }

  lemma {:induction false} MemberIsReplacedIff(props: seq<Prop>, members: seq<Member>, reread: Reread, i: nat)
    requires WellFormedMembers(members) && i < |members|
    ensures Last(Merge(props, members, reread), members[i].key).Some?
    ensures CstMeaning(Last(Merge(props, members, reread), members[i].key).value) == Meaning(members[i].value)
            <==> MemberReplaces(props, members[i], reread)
    decreases members[i], 2
  {
    var m := members[i];
    var p := Get(props, m.key);
    MergeHasTheKeys(props, members, reread);
    LastAfterMerge(props, members, reread, m.key);
    if !Repeated(props, m.key) {
      if p.Some? && p.value.value.CObj? && m.value.Obj? {
        EditReplacesValue(p.value.value.props, m.value.members, reread);
      } else {
        ToCstMeaning(m.value, reread);
        WrittenMeansSame(m.value, reread);
      }
    }
  }

  /**
   * For any file, repeated names or not: editing in place means replacing the
   * value, at every depth, exactly under that condition.
   */
  lemma {:induction false} EditReplacesValue(props: seq<Prop>, members: seq<Member>, reread: Reread)
    requires WellFormedMembers(members)
    ensures CstMeaning(CObj(Merge(props, members, reread))) == Meaning(Obj(members)) <==> Replaces(props, members, reread)
    decreases members, 3
  {
    var out := Merge(props, members, reread);
    MergeHasTheKeys(props, members, reread);
    FieldsAre(out, members);
    forall i | 0 <= i < |members|
      ensures CstMeaning(Last(out, members[i].key).value) == Meaning(members[i].value) <==> MemberReplaces(props, members[i], reread)
    {
      MemberIsReplacedIff(props, members, reread, i);
    }
  }

  /** With unique names the condition is that every number is an i64 or survives being written as a double. */
  lemma UniqueNamesReplace(props: seq<Prop>, members: seq<Member>, reread: Reread)
    requires UniqueNames(props) && WellFormedMembers(members)
    ensures Replaces(props, members, reread) <==> NumbersSurvive(Obj(members), reread)
  {
    EditReplacesValue(props, members, reread);
    MergeMeansWritten(props, members, reread);
    WrittenMeansSame(Obj(members), reread);
  }

  /** So an object of nothing but such integers replaces the old one however doubles are read. */
  lemma I64Replace(props: seq<Prop>, members: seq<Member>, reread: Reread)
    requires UniqueNames(props) && WellFormedMembers(members) && OnlyI64(Obj(members))
    ensures CstMeaning(CObj(Merge(props, members, reread))) == Meaning(Obj(members))
  {
    I64Survives(Obj(members), reread);
    UniqueNamesReplace(props, members, reread);
    EditReplacesValue(props, members, reread);
  }

  /** A repeated name that is in the new object is read as before, whatever its new value is. */
  lemma DuplicateNamesKeepTheOldValue(props: seq<Prop>, members: seq<Member>, reread: Reread, name: string)
    requires WellFormedMembers(members) && name in Keys(members) && Repeated(props, name)
    ensures name in CstFields(props) && name in CstFields(Merge(props, members, reread))
    ensures CstFields(Merge(props, members, reread))[name] == CstFields(props)[name]
  {
    var i :| 0 <= i < |members| && members[i].key == name;
    RepeatedIsFound(props, name);
    LastAfterMerge(props, members, reread, name);
    FieldsByLast(props);
    FieldsByLast(Merge(props, members, reread));
  }
}
