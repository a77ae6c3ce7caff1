/** What a converter does when it is called, and the functional specification of
    `_convert`, `extract` and `extract_all` (fborm/parse.py). Calling a list-of-schema
    converter extracts one record per child, so the converter call and extraction are
    one mutually recursive definition; it recurses on the descriptor and schema
    structure, which is finite because typemaps are dict literals. */
module Engine {
  import opened Wrappers
  import opened Types
  import Util

  /** The caller's remapping of field names to wire names. */
  type NameMap = map<string, string>

  /** A record under construction (a jsontree, used as a dict). */
  type Fields = map<string, Value>

  /** `namemap.get(k, k)` */
  function Remap(nm: NameMap, k: string): (r: string)
    ensures k !in nm ==> r == k
    ensures k in nm ==> r == nm[k]
  {
    if k in nm then nm[k] else k
  }

  /** The argument a converter receives after the node, if any. */
  datatype Extra =
    | NoArg                     // conv(node)
    | NameMapArg(nm: NameMap)   // conv(node, namemap): takes_map
    | RecordArg(rec: Fields)    // conv(node, res): takes_data
    | NameArg(name: string)     // conv(parent, mappedname): attrib

  /** The body of _firstelem: the first element of a list, None for an empty one,
      anything else unchanged. */
  function First(v: Value): (r: Value)
    ensures v.List? && v.items != [] ==> r == v.items[0]
    ensures v.List? && v.items == [] ==> r == Null
    ensures !v.List? ==> r == v
  {
    match v
    case List(xs) => if xs == [] then Null else xs[0]
    case _ => v
  }

  /** `all(check(objdata[name]) for name, check in conditions)`, stopping at the first
      check that fails; a missing name raises KeyError when it is reached. */
  function CheckConditions(conditions: seq<Condition>, rec: Fields): (r: Result<bool, Error>)
    ensures r == Ok(true) <==>
      forall i :: 0 <= i < |conditions| ==>
        conditions[i].name in rec && conditions[i].check(rec[conditions[i].name])
    ensures r.Err? ==> exists i :: 0 <= i < |conditions| && conditions[i].name !in rec && r.error == KeyError(conditions[i].name)
  {
    if conditions == [] then Ok(true)
    else
      var c := conditions[0];
      if c.name !in rec then Err(KeyError(c.name))
      else if !c.check(rec[c.name]) then Ok(false)
      else
        var r := CheckConditions(conditions[1..], rec);
        assert r.Err? ==> exists i :: 0 <= i < |conditions[1..]| && conditions[1..][i].name !in rec && r.error == KeyError(conditions[1..][i].name);
        r
  }

  /** Text-only stand-ins `_obj(text=t)`, one per string. */
  function TextNodes(ts: seq<string>): (r: seq<Node>)
    ensures |r| == |ts|
    ensures forall i :: 0 <= i < |ts| ==> r[i] == TextNode(ts[i])
  {
    seq(|ts|, i requires 0 <= i < |ts| => TextNode(ts[i]))
  }

  /** The extra argument each converter's signature takes after the node. An undefined
      converter fails whatever it is given. */
  predicate Takes(c: Conv, extra: Extra) {
    match c
    case ListOfSchema(_) => extra.NameMapArg?
    case ListOfSchemaAsWritten(_) => extra.NameMapArg?
    case Conditional(_, _) => extra.RecordArg?
    case AttrOf(_) => extra.NameArg?
    case SelfText => extra.NameArg?
    case FirstElemForwarding(inner) => Takes(inner.conv, extra)
    case Undefined(_) => true
    case _ => extra.NoArg?
  }

  /** Calling the converter of d on node n with the extra argument `extra`. A converter
      called with arguments it does not take raises TypeError (ArgumentCountError). */
  function Call(d: Descriptor, n: Node, extra: Extra): Result<Value, Error>
    decreases d, 0
  {
    match d.conv
    case IntConv => if extra.NoArg? then ConvertInt(n) else Err(ArgumentCountError)
    case BoolConv => if extra.NoArg? then Ok(ConvertBool(n)) else Err(ArgumentCountError)
    case StringConv => if extra.NoArg? then Ok(ConvertString(n)) else Err(ArgumentCountError)
    case DateTimeConv => if extra.NoArg? then ConvertDateTime(n) else Err(ArgumentCountError)
    case ListOf(elem) =>
      if !extra.NoArg? then Err(ArgumentCountError)
      else if n.TextNode? then Err(NotAnElement)
      else
        var vs :- CallEach(elem, n.children);
        Ok(List(vs))
    case ListOfSchema(s) =>
      if !extra.NameMapArg? then Err(ArgumentCountError)
      else if n.TextNode? then Err(NotAnElement)
      else
        var rs :- ExtractItems(s, n.children, extra.nm);
        Ok(List(Recs(rs)))
    case ListOfSchemaAsWritten(_) =>
      if !extra.NameMapArg? then Err(ArgumentCountError) else Err(NameError("extract_all"))
    case CommaListOf(elem) =>
      if !extra.NoArg? then Err(ArgumentCountError)
      else
        var vs :- CallEach(elem, TextNodes(Util.CommaOrSpaceSplit(Text(n))));
        Ok(List(vs))
    case Conditional(inner, conditions) =>
      if !extra.RecordArg? then Err(ArgumentCountError)
      else
        var holds :- CheckConditions(conditions, extra.rec);
        if holds then Call(inner, n, NoArg) else Ok(Null)
    case FirstElem(inner) =>
      if !extra.NoArg? then Err(ArgumentCountError)
      else
        var v :- Call(inner, n, NoArg);
        Ok(First(v))
    case FirstElemForwarding(inner) =>
      var v :- Call(inner, n, extra);
      Ok(First(v))
    case AttrOf(elem) =>
      if !extra.NameArg? then Err(ArgumentCountError)
      else if n.TextNode? then Err(NotAnElement)
      else if extra.name in n.attrs then Call(elem, TextNode(n.attrs[extra.name]), NoArg)
      else Ok(Null)
    case SelfText =>
      if extra.NameArg? then Ok(Str(Text(n))) else Err(ArgumentCountError)
    case Undefined(name) => Err(AttributeError(name))
  }

  /** A converter called with an argument its signature does not take raises TypeError,
      whatever the node; only an undefined converter fails otherwise. */
  lemma {:induction false} CallArity(d: Descriptor, n: Node, extra: Extra)
    requires !Takes(d.conv, extra)
    ensures Call(d, n, extra) == Err(ArgumentCountError)
    decreases d
  {
    if d.conv.FirstElemForwarding? {
      CallArity(d.conv.inner, n, extra);
    }
  }

  /** `[conv(node) for node in nodes]`: the first failure, or one value per node in order. */
  function CallEach(d: Descriptor, nodes: seq<Node>): (r: Result<seq<Value>, Error>)
    ensures r.Ok? ==> |r.value| == |nodes|
    ensures r.Ok? ==> forall i :: 0 <= i < |nodes| ==> Call(d, nodes[i], NoArg) == Ok(r.value[i])
    ensures r.Err? <==> exists i :: 0 <= i < |nodes| && Call(d, nodes[i], NoArg).Err?
    decreases d, 1, |nodes|
  {
    if nodes == [] then Ok([])
    else
      var v :- Call(d, nodes[0], NoArg);
      var vs :- CallEach(d, nodes[1..]);
      Ok([v] + vs)
  }

  /** The `'\n'` strings between the elements of a pretty-printed response. */
  predicate IsNewline(n: Node) {
    n.TextNode? && n.content == "\n"
  }

  /** The items extract_all's generator lets through: all but the `'\n'` strings, in order. */
  function Kept(items: seq<Node>): seq<Node> {
    if items == [] then []
    else (if IsNewline(items[0]) then [] else [items[0]]) + Kept(items[1..])
  }

  /** The kept items are exactly the items that are not `'\n'` strings. */
  lemma {:induction false} KeptMembers(items: seq<Node>)
    ensures forall n :: n in Kept(items) <==> n in items && !IsNewline(n)
  {
    if items != [] {
      KeptMembers(items[1..]);
      assert forall n :: n in items <==> n == items[0] || n in items[1..];
    }
  }

  /** One item is kept exactly when it is not a `'\n'` string. */
  lemma KeptOne(x: Node)
    ensures Kept([x]) == if IsNewline(x) then [] else [x]
  {
    assert [x][1..] == [];
  }

  /** The filter keeps order: it acts on a concatenation part by part. */
  lemma {:induction false} KeptAppend(a: seq<Node>, b: seq<Node>)
    ensures Kept(a + b) == Kept(a) + Kept(b)
  {
    if a == [] {
      assert a + b == b;
    } else {
      var h := if IsNewline(a[0]) then [] else [a[0]];
      assert (a + b)[0] == a[0] && (a + b)[1..] == a[1..] + b;
      assert Kept(a + b) == h + Kept(a[1..] + b);
      assert Kept(a) == h + Kept(a[1..]);
      KeptAppend(a[1..], b);
      assert h + (Kept(a[1..]) + Kept(b)) == (h + Kept(a[1..])) + Kept(b);
    }
  }

  /** extract_all without sorting: one record per kept item, in order. */
  function ExtractItems(s: Schema, items: seq<Node>, nm: NameMap): Result<seq<Fields>, Error>
    decreases s, 4
  {
    ExtractEach(s, Kept(items), nm)
  }

  /** `[extract(item, ...) for item in items]`: the first failure, or the records in order. */
  function ExtractEach(s: Schema, items: seq<Node>, nm: NameMap): Result<seq<Fields>, Error>
    decreases s, 3, |items|
  {
    if items == [] then Ok([])
    else
      var head :- ExtractSpec(s, items[0], nm);
      var tail :- ExtractEach(s, items[1..], nm);
      Ok([head] + tail)
  }

  /** What extract gives for each item, in order. */
  function Outcomes(s: Schema, items: seq<Node>, nm: NameMap): (r: seq<Result<Fields, Error>>)
    ensures |r| == |items| && forall i :: 0 <= i < |items| ==> r[i] == ExtractSpec(s, items[i], nm)
  {
    seq(|items|, i requires 0 <= i < |items| => ExtractSpec(s, items[i], nm))
  }

  /** The first failure among the outcomes, or all their records in order. */
  function Collect(rs: seq<Result<Fields, Error>>): (r: Result<seq<Fields>, Error>)
    ensures r.Ok? ==> |r.value| == |rs| && forall i :: 0 <= i < |rs| ==> rs[i] == Ok(r.value[i])
    ensures r.Err? <==> exists i :: 0 <= i < |rs| && rs[i].Err?
  {
    if rs == [] then Ok([])
    else if rs[0].Err? then Err(rs[0].error)
    else
      var tail := Collect(rs[1..]);
      if tail.Err? then
        assert exists i :: 0 <= i < |rs| && rs[i].Err? by {
          var k :| 0 <= k < |rs[1..]| && rs[1..][k].Err?;
          assert rs[1..][k] == rs[k + 1];
        }
        Err(tail.error)
      else
        var r := [rs[0].value] + tail.value;
        assert forall i :: 1 <= i < |rs| ==> rs[1..][i - 1] == rs[i] && r[i] == tail.value[i - 1];
        Ok(r)
  }

  /** ExtractEach collects the outcomes of extract on the items. */
  lemma {:induction false} ExtractEachCollects(s: Schema, items: seq<Node>, nm: NameMap)
    ensures ExtractEach(s, items, nm) == Collect(Outcomes(s, items, nm))
    decreases |items|
  {
    if items != [] {
      var rs := Outcomes(s, items, nm);
      ExtractEachCollects(s, items[1..], nm);
      assert rs[1..] == Outcomes(s, items[1..], nm);
    }
  }

  /** One record per item, each what extract gives for that item; failure exactly when
      some item fails. */
  lemma ExtractEachPerItem(s: Schema, items: seq<Node>, nm: NameMap)
    ensures var r := ExtractEach(s, items, nm);
            && (r.Ok? ==> |r.value| == |items|)
            && (r.Ok? ==> forall i :: 0 <= i < |items| ==> ExtractSpec(s, items[i], nm) == Ok(r.value[i]))
            && (r.Err? <==> exists i :: 0 <= i < |items| && ExtractSpec(s, items[i], nm).Err?)
  {
    ExtractEachCollects(s, items, nm);
    var rs := Outcomes(s, items, nm);
    assert forall i :: 0 <= i < |items| ==> rs[i] == ExtractSpec(s, items[i], nm);
  }

  /** The records as values of a list. */
  function Recs(ms: seq<Fields>): (r: seq<Value>)
    ensures |r| == |ms| && forall i :: 0 <= i < |ms| ==> r[i] == Rec(ms[i])
  {
    seq(|ms|, i requires 0 <= i < |ms| => Rec(ms[i]))
  }

  /** The fields of fs in order whose takes_data flag is `deferred`: extract's first
      pass (deferred false) and its late_processes list (deferred true). */
  function Pass(fs: seq<Field>, deferred: bool): (r: seq<Field>)
    ensures forall f :: f in r ==> f in fs && f.desc.takesData == deferred
  {
    if fs == [] then []
    else (if fs[0].desc.takesData == deferred then [fs[0]] else []) + Pass(fs[1..], deferred)
  }

  /** Every field of the pass's kind is in the pass. */
  lemma {:induction false} PassComplete(fs: seq<Field>, deferred: bool)
    ensures forall f :: f in fs && f.desc.takesData == deferred ==> f in Pass(fs, deferred)
  {
    if fs != [] {
      PassComplete(fs[1..], deferred);
      assert forall f :: f in fs ==> f == fs[0] || f in fs[1..];
    }
  }

  /** The names of the fields in fs that _convert stores (all but the ignored ones). */
  function StoredNames(fs: seq<Field>): set<string> {
    if fs == [] then {} else (if fs[0].desc.ignore then {} else {fs[0].name}) + StoredNames(fs[1..])
  }

  /** The names a pass stores, taken apart at the first field. */
  lemma {:induction false} PassStoredNamesCons(fs: seq<Field>, deferred: bool)
    requires fs != []
    ensures StoredNames(Pass(fs, deferred))
            == (if fs[0].desc.takesData == deferred && !fs[0].desc.ignore then {fs[0].name} else {})
               + StoredNames(Pass(fs[1..], deferred))
  {
    var f := fs[0];
    var rest := Pass(fs[1..], deferred);
    if f.desc.takesData == deferred {
      assert Pass(fs, deferred) == [f] + rest;
      assert ([f] + rest)[1..] == rest;
    } else {
      assert Pass(fs, deferred) == rest;
    }
  }

  /** The two passes of extract together store what one pass over all fields would. */
  lemma {:induction false} PassesStoreAllNames(fs: seq<Field>)
    ensures StoredNames(Pass(fs, false)) + StoredNames(Pass(fs, true)) == StoredNames(fs)
  {
    if fs != [] {
      PassesStoreAllNames(fs[1..]);
      PassStoredNamesCons(fs, false);
      PassStoredNamesCons(fs, true);
    }
  }

  /** extract: convert the fields of the first pass into an empty record, then the
      deferred ones. The record holds exactly the fields that are not ignored. */
  function ExtractSpec(s: Schema, n: Node, nm: NameMap): (r: Result<Fields, Error>)
    ensures r.Ok? ==> r.value.Keys == StoredNames(s.fields)
    decreases s, 2
  {
    var early :- ConvertSeq(s, Pass(s.fields, false), n, map[], nm);
    PassesStoreAllNames(s.fields);
    ConvertSeq(s, Pass(s.fields, true), n, early, nm)
  }

  /** _convert applied to the fields fs in order, threading the record through: every
      stored field is added and every other entry of the record is left as it was. */
  function ConvertSeq(s: Schema, fs: seq<Field>, n: Node, rec: Fields, nm: NameMap): (r: Result<Fields, Error>)
    requires forall f :: f in fs ==> f in s.fields
    ensures r.Ok? ==> r.value.Keys == rec.Keys + StoredNames(fs)
    ensures r.Ok? ==> forall k :: k in rec && k !in StoredNames(fs) ==> r.value[k] == rec[k]
    decreases s, 1, |fs|
  {
    if fs == [] then Ok(rec)
    else
      assert fs[0] in s.fields;
      var next :- ConvertField(fs[0], n, rec, nm);
      ConvertSeq(s, fs[1..], n, next, nm)
  }

  /** The wire name a field is read from: resname when the descriptor has one. */
  function ReadName(f: Field): string {
    if f.desc.resname.Some? then f.desc.resname.value else f.name
  }

  /** `fbdata.find(name)`, falling back to the lower-cased name; RuntimeError when
      neither is there. The exact name wins when both occur. */
  function FindEither(n: Node, name: string): (r: Result<Node, Error>)
    ensures n.Element? && FindIn(n.children, name).Some? ==> r == Ok(FindIn(n.children, name).value)
    ensures n.Element? && FindIn(n.children, name).None? && FindIn(n.children, Lower(name)).Some? ==>
              r == Ok(FindIn(n.children, Lower(name)).value)
    ensures r.Ok? ==> r.value.Element? && (r.value.tag == name || r.value.tag == Lower(name))
    ensures n.TextNode? ==> r == Err(NotAnElement)
    ensures n.Element? ==> (r.Ok? <==> Occurs(n.children, name) || Occurs(n.children, Lower(name)))
    ensures r.Err? && n.Element? ==> r.error == NotFound(name)
  {
    if n.TextNode? then Err(NotAnElement)
    else
      FindInFindsOccurrence(n.children, name);
      FindInFindsOccurrence(n.children, Lower(name));
      var exact := FindIn(n.children, name);
      if exact.Some? then Ok(exact.value)
      else
        var lowered := FindIn(n.children, Lower(name));
        if lowered.Some? then Ok(lowered.value) else Err(NotFound(name))
  }

  /** The extra argument _convert passes to a non-attribute converter. */
  function ExtraFor(d: Descriptor, rec: Fields, nm: NameMap): Extra {
    if d.takesMap then NameMapArg(nm) else if d.takesData then RecordArg(rec) else NoArg
  }

  /** _convert(res, fbdata, name, conv, typemap, namemap): the record after field f
      has been converted from node n. */
  function ConvertField(f: Field, n: Node, rec: Fields, nm: NameMap): (r: Result<Fields, Error>)
    ensures r.Ok? && f.desc.ignore ==> r.value == rec
    ensures r.Ok? && !f.desc.ignore ==> f.name in r.value && r.value == rec[f.name := r.value[f.name]]
    decreases f.desc, 1
  {
    var d := f.desc;
    var mapped := Remap(nm, ReadName(f));
    if d.ignore then Ok(rec)
    else if d.attrib then
      var v :- Call(d, n, NameArg(mapped));
      Ok(rec[f.name := v])
    else
      var inner :- FindEither(n, mapped);
      var v :- Call(d, inner, ExtraFor(d, rec, nm));
      Ok(rec[f.name := v])
  }

  // ---------------------------------------------------------------- properties of extract

  lemma {:induction false} StoredNamesMember(fs: seq<Field>, k: string)
    ensures k in StoredNames(fs) <==> exists i :: 0 <= i < |fs| && !fs[i].desc.ignore && fs[i].name == k
  {
    if fs != [] {
      StoredNamesMember(fs[1..], k);
      if exists i :: 0 <= i < |fs| && !fs[i].desc.ignore && fs[i].name == k {
        var i :| 0 <= i < |fs| && !fs[i].desc.ignore && fs[i].name == k;
        if i > 0 { assert fs[1..][i - 1] == fs[i]; }
      }
      if exists i :: 0 <= i < |fs[1..]| && !fs[1..][i].desc.ignore && fs[1..][i].name == k {
        var i :| 0 <= i < |fs[1..]| && !fs[1..][i].desc.ignore && fs[1..][i].name == k;
        assert fs[i + 1] == fs[1..][i];
      }
    }
  }

  /** A field flagged `ignore` is absent from the extracted record. */
  lemma {:induction false} IgnoredFieldIsAbsent(s: Schema, n: Node, nm: NameMap, i: nat)
    requires WellFormed(s) && i < |s.fields| && s.fields[i].desc.ignore
    requires ExtractSpec(s, n, nm).Ok?
    ensures s.fields[i].name !in ExtractSpec(s, n, nm).value
  {
    var k := s.fields[i].name;
    assert ExtractSpec(s, n, nm).value.Keys == StoredNames(s.fields);
    StoredNamesMember(s.fields, k);
    assert forall j :: 0 <= j < |s.fields| && j != i ==> s.fields[j].name != k;
  }

  /** Each pass lists its fields in the order of the typemap, so names stay distinct. */
  lemma {:induction false} PassDistinct(fs: seq<Field>, deferred: bool)
    requires DistinctNames(fs)
    ensures DistinctNames(Pass(fs, deferred))
  {
    if fs != [] {
      PassDistinct(fs[1..], deferred);
      var rest := Pass(fs[1..], deferred);
      forall j | 0 <= j < |rest| ensures rest[j].name != fs[0].name {
        assert rest[j] in rest;
        var k :| 0 <= k < |fs[1..]| && fs[1..][k] == rest[j];
        assert fs[k + 1] == rest[j];
      }
    }
  }

  /** No name is stored by both passes. */
  lemma {:induction false} PassNamesDisjoint(fs: seq<Field>)
    requires DistinctNames(fs)
    ensures StoredNames(Pass(fs, false)) !! StoredNames(Pass(fs, true))
  {
    if fs != [] {
      assert DistinctNames(fs[1..]) by {
        forall a, b | 0 <= a < b < |fs[1..]| ensures fs[1..][a].name != fs[1..][b].name {
          assert fs[1..][a] == fs[a + 1] && fs[1..][b] == fs[b + 1];
        }
      }
      PassNamesDisjoint(fs[1..]);
      PassesStoreAllNames(fs[1..]);
      StoredNamesMember(fs[1..], fs[0].name);
      assert fs[0].name !in StoredNames(fs[1..]) by {
        forall i | 0 <= i < |fs[1..]| ensures fs[1..][i].name != fs[0].name {
          assert fs[1..][i] == fs[i + 1];
        }
      }
      PassStoredNamesCons(fs, false);
      PassStoredNamesCons(fs, true);
    }
  }

  /** Whether the conditions hold depends only on the record's entries they name. */
  lemma {:induction false} CheckConditionsReadsNamedEntries(conditions: seq<Condition>, r1: Fields, r2: Fields)
    requires forall i :: 0 <= i < |conditions| ==> (conditions[i].name in r1 <==> conditions[i].name in r2)
    requires forall i :: 0 <= i < |conditions| && conditions[i].name in r1 ==> r1[conditions[i].name] == r2[conditions[i].name]
    ensures CheckConditions(conditions, r1) == CheckConditions(conditions, r2)
  {
    if conditions != [] {
      CheckConditionsReadsNamedEntries(conditions[1..], r1, r2);
    }
  }

  /** Field fs[j] is converted from a record `seen` that agrees with the starting record on
      every name the fields do not store, and its stored value is the final one. */
  lemma {:induction false} ConvertSeqSeen(s: Schema, fs: seq<Field>, n: Node, rec: Fields, nm: NameMap, j: nat)
    returns (seen: Fields)
    requires forall f :: f in fs ==> f in s.fields
    requires DistinctNames(fs) && j < |fs| && !fs[j].desc.ignore
    requires ConvertSeq(s, fs, n, rec, nm).Ok?
    ensures fs[j].name in ConvertSeq(s, fs, n, rec, nm).value
    ensures forall k :: k in rec && k !in StoredNames(fs) ==> k in seen && seen[k] == rec[k]
    ensures ConvertField(fs[j], n, seen, nm) == Ok(seen[fs[j].name := ConvertSeq(s, fs, n, rec, nm).value[fs[j].name]])
    decreases j
  {
    var m := ConvertSeq(s, fs, n, rec, nm).value;
    var next := ConvertField(fs[0], n, rec, nm).value;
    assert ConvertSeq(s, fs[1..], n, next, nm) == Ok(m);
    if j == 0 {
      seen := rec;
      StoredNamesMember(fs[1..], fs[0].name);
      StoredNamesMember(fs, fs[0].name);
      assert fs[0].name !in StoredNames(fs[1..]) by {
        forall i | 0 <= i < |fs[1..]| ensures fs[1..][i].name != fs[0].name {
          assert fs[1..][i] == fs[i + 1];
        }
      }
    } else {
      assert DistinctNames(fs[1..]) by {
        forall a, b | 0 <= a < b < |fs[1..]| ensures fs[1..][a].name != fs[1..][b].name {
          assert fs[1..][a] == fs[a + 1] && fs[1..][b] == fs[b + 1];
        }
      }
      assert fs[1..][j - 1] == fs[j];
      seen := ConvertSeqSeen(s, fs[1..], n, next, nm, j - 1);
      StoredNamesMember(fs, fs[0].name);
    }
  }

  /** What _convert does with a conditional field, given the record it is handed. */
  lemma {:induction false} ConditionalField(f: Field, n: Node, seen: Fields, nm: NameMap, v: Value)
    requires f.desc.conv.Conditional? && f.desc.takesData && !f.desc.takesMap
    requires !f.desc.attrib && !f.desc.ignore
    requires ConvertField(f, n, seen, nm) == Ok(seen[f.name := v])
    ensures FindEither(n, Remap(nm, ReadName(f))).Ok?
    ensures CheckConditions(f.desc.conv.conditions, seen).Ok?
    ensures CheckConditions(f.desc.conv.conditions, seen).value ==>
              Call(f.desc.conv.inner, FindEither(n, Remap(nm, ReadName(f))).value, NoArg) == Ok(v)
    ensures !CheckConditions(f.desc.conv.conditions, seen).value ==> v == Null
  {
    assert seen[f.name := v][f.name] == v;
  }

  /** The record a deferred field is converted from agrees with the finished record on
      every field of the first pass. */
  lemma {:induction false} DeferredFieldSeen(s: Schema, n: Node, nm: NameMap, i: nat) returns (seen: Fields)
    requires WellFormed(s) && i < |s.fields|
    requires s.fields[i].desc.takesData && !s.fields[i].desc.ignore
    requires ExtractSpec(s, n, nm).Ok?
    ensures s.fields[i].name in ExtractSpec(s, n, nm).value
    ensures forall k :: k in StoredNames(Pass(s.fields, false)) ==>
              k in seen && k in ExtractSpec(s, n, nm).value && seen[k] == ExtractSpec(s, n, nm).value[k]
    ensures ConvertField(s.fields[i], n, seen, nm)
              == Ok(seen[s.fields[i].name := ExtractSpec(s, n, nm).value[s.fields[i].name]])
  {
    var f := s.fields[i];
    var early := ConvertSeq(s, Pass(s.fields, false), n, map[], nm).value;
    var late := Pass(s.fields, true);
    var m := ExtractSpec(s, n, nm).value;
    assert ConvertSeq(s, late, n, early, nm) == Ok(m);
    PassComplete(s.fields, true);
    assert f in late;
    var j :| 0 <= j < |late| && late[j] == f;
    PassDistinct(s.fields, true);
    PassNamesDisjoint(s.fields);
    seen := ConvertSeqSeen(s, late, n, early, nm, j);
  }

  /** The deferral of extract at work: a conditional field whose conditions name fields of
      the first pass is converted when those fields hold their final values, so it is
      None exactly when a condition fails on the finished record, and otherwise the inner
      converter applied to the element found under its wire name. */
  lemma {:induction false} ConditionalSeesFirstPass(s: Schema, n: Node, nm: NameMap, i: nat)
    requires WellFormed(s) && i < |s.fields|
    requires s.fields[i].desc.conv.Conditional?
    requires s.fields[i].desc.takesData && !s.fields[i].desc.takesMap
    requires !s.fields[i].desc.attrib && !s.fields[i].desc.ignore
    requires forall c :: c in s.fields[i].desc.conv.conditions ==> c.name in StoredNames(Pass(s.fields, false))
    requires ExtractSpec(s, n, nm).Ok?
    ensures var m := ExtractSpec(s, n, nm).value;
            var f := s.fields[i];
            var conditions := f.desc.conv.conditions;
            var found := FindEither(n, Remap(nm, ReadName(f)));
            && found.Ok?
            && f.name in m
            && (forall c :: c in conditions ==> c.name in m)
            && ((forall c :: c in conditions ==> c.check(m[c.name])) ==> Call(f.desc.conv.inner, found.value, NoArg) == Ok(m[f.name]))
            && (!(forall c :: c in conditions ==> c.check(m[c.name])) ==> m[f.name] == Null)
  {
    var f := s.fields[i];
    var conditions := f.desc.conv.conditions;
    var m := ExtractSpec(s, n, nm).value;
    var seen := DeferredFieldSeen(s, n, nm, i);
    ConditionalField(f, n, seen, nm, m[f.name]);
    assert forall k :: 0 <= k < |conditions| ==> conditions[k] in conditions;
    CheckConditionsReadsNamedEntries(conditions, seen, m);
  }

  /** An attribute field stores the descriptor called on the node itself with the mapped
      name, or fails with the descriptor's error. */
  lemma {:induction false} ConvertFieldAttribute(f: Field, n: Node, rec: Fields, nm: NameMap)
    requires !f.desc.ignore && f.desc.attrib
    ensures var c := Call(f.desc, n, NameArg(Remap(nm, ReadName(f))));
            && (c.Ok? ==> ConvertField(f, n, rec, nm) == Ok(rec[f.name := c.value]))
            && (c.Err? ==> ConvertField(f, n, rec, nm) == Err(c.error))
  {
  }

  /** An element field whose name, remapped, occurs neither as it is nor lower-cased
      below the node is fatal: _convert raises before any converter runs. */
  lemma {:induction false} ConvertFieldMissingElement(f: Field, n: Node, rec: Fields, nm: NameMap)
    requires !f.desc.ignore && !f.desc.attrib && n.Element?
    requires !Occurs(n.children, Remap(nm, ReadName(f)))
    requires !Occurs(n.children, Lower(Remap(nm, ReadName(f))))
    ensures ConvertField(f, n, rec, nm) == Err(NotFound(Remap(nm, ReadName(f))))
  {
    assert FindEither(n, Remap(nm, ReadName(f))) == Err(NotFound(Remap(nm, ReadName(f))));
  }

  /** An element field stores the descriptor called on the element found under its
      remapped name, with the name map or the record as the extra argument; a failed
      lookup or a failed call is the field's failure. */
  lemma {:induction false} ConvertFieldElement(f: Field, n: Node, rec: Fields, nm: NameMap)
    requires !f.desc.ignore && !f.desc.attrib
    ensures var found := FindEither(n, Remap(nm, ReadName(f)));
            && (found.Err? ==> ConvertField(f, n, rec, nm) == Err(found.error))
            && (found.Ok? ==>
                  var c := Call(f.desc, found.value, ExtraFor(f.desc, rec, nm));
                  && (c.Ok? ==> ConvertField(f, n, rec, nm) == Ok(rec[f.name := c.value]))
                  && (c.Err? ==> ConvertField(f, n, rec, nm) == Err(c.error)))
  {
  }

  /** A first-pass field does not read the record it is converted into: converting it
      from any record stores the value the finished record holds. */
  lemma {:induction false} EarlyFieldSeen(s: Schema, n: Node, nm: NameMap, i: nat, rec: Fields)
    requires WellFormed(s) && i < |s.fields|
    requires !s.fields[i].desc.takesData && !s.fields[i].desc.ignore
    requires ExtractSpec(s, n, nm).Ok?
    ensures s.fields[i].name in ExtractSpec(s, n, nm).value
    ensures ConvertField(s.fields[i], n, rec, nm)
              == Ok(rec[s.fields[i].name := ExtractSpec(s, n, nm).value[s.fields[i].name]])
  {
    var f := s.fields[i];
    var first := Pass(s.fields, false);
    var early := ConvertSeq(s, first, n, map[], nm).value;
    var late := Pass(s.fields, true);
    var m := ExtractSpec(s, n, nm).value;
    assert ConvertSeq(s, late, n, early, nm) == Ok(m);
    PassComplete(s.fields, false);
    assert f in first;
    var j :| 0 <= j < |first| && first[j] == f;
    PassDistinct(s.fields, false);
    var seen := ConvertSeqSeen(s, first, n, map[], nm, j);
    PassNamesDisjoint(s.fields);
    assert f.name in StoredNames(first);
    FirstPassFieldIgnoresRecord(f, n, seen, rec, nm);
  }

  /** A field that takes no data converts to the same value whatever the record. */
  lemma FirstPassFieldIgnoresRecord(f: Field, n: Node, rec: Fields, rec': Fields, nm: NameMap)
    requires !f.desc.takesData && !f.desc.ignore
    requires ConvertField(f, n, rec, nm).Ok?
    ensures ConvertField(f, n, rec', nm) == Ok(rec'[f.name := ConvertField(f, n, rec, nm).value[f.name]])
  {
    assert ExtraFor(f.desc, rec, nm) == ExtraFor(f.desc, rec', nm);
  }

  /** The value extract stores for a field of the first pass: for an attribute field the
      descriptor called on the node with the mapped name, otherwise the descriptor called
      on the element found under that name, with the name map when it takes one. */
  lemma {:induction false} ExtractedFieldValue(s: Schema, n: Node, nm: NameMap, i: nat)
    requires WellFormed(s) && i < |s.fields|
    requires !s.fields[i].desc.takesData && !s.fields[i].desc.ignore
    requires ExtractSpec(s, n, nm).Ok?
    ensures var m := ExtractSpec(s, n, nm).value;
            var d := s.fields[i].desc;
            var name := Remap(nm, ReadName(s.fields[i]));
            && s.fields[i].name in m
            && (d.attrib ==> Call(d, n, NameArg(name)) == Ok(m[s.fields[i].name]))
            && (!d.attrib ==>
                  && FindEither(n, name).Ok?
                  && Call(d, FindEither(n, name).value, if d.takesMap then NameMapArg(nm) else NoArg)
                     == Ok(m[s.fields[i].name]))
  {
    var f := s.fields[i];
    var seen: Fields := map[];
    EarlyFieldSeen(s, n, nm, i, seen);
    var v := ExtractSpec(s, n, nm).value[f.name];
    assert seen[f.name := v][f.name] == v;
    if f.desc.attrib {
      ConvertFieldAttribute(f, n, seen, nm);
    } else {
      ConvertFieldElement(f, n, seen, nm);
    }
  }

  /** A schema field that fails whatever record it is handed makes extract fail, whichever
      pass it belongs to. */
  lemma {:induction false} ExtractFailsOnFailingField(s: Schema, n: Node, nm: NameMap, i: nat)
    requires WellFormed(s) && i < |s.fields| && !s.fields[i].desc.ignore
    requires forall rec :: ConvertField(s.fields[i], n, rec, nm).Err?
    ensures ExtractSpec(s, n, nm).Err?
  {
    if ExtractSpec(s, n, nm).Ok? {
      if s.fields[i].desc.takesData {
        var seen := DeferredFieldSeen(s, n, nm, i);
      } else {
        EarlyFieldSeen(s, n, nm, i, map[]);
      }
    }
  }

  /** A schema field whose element is absent below the node makes extract fail. */
  lemma {:induction false} ExtractFailsOnMissingElement(s: Schema, n: Node, nm: NameMap, i: nat)
    requires WellFormed(s) && i < |s.fields|
    requires !s.fields[i].desc.ignore && !s.fields[i].desc.attrib && n.Element?
    requires !Occurs(n.children, Remap(nm, ReadName(s.fields[i])))
    requires !Occurs(n.children, Lower(Remap(nm, ReadName(s.fields[i]))))
    ensures ExtractSpec(s, n, nm).Err?
  {
    forall rec ensures ConvertField(s.fields[i], n, rec, nm).Err? {
      ConvertFieldMissingElement(s.fields[i], n, rec, nm);
    }
    ExtractFailsOnFailingField(s, n, nm, i);
  }

  // ---------------------------------------------------------------- the combinators called

  /** The scalar converters called with the node alone. */
  lemma ScalarCalls(n: Node)
    ensures Call(FbInt, n, NoArg) == ConvertInt(n)
    ensures Call(FbBool, n, NoArg) == Ok(ConvertBool(n))
    ensures Call(FbString, n, NoArg) == Ok(ConvertString(n))
    ensures Call(FbDateTime, n, NoArg) == ConvertDateTime(n)
  {
  }

  /** fbself is a non-settable attribute reader: whatever name the field has, _convert
      stores the text of the node itself under it. */
  lemma SelfReadsOwnText(n: Node, rec: Fields, nm: NameMap, name: string)
    ensures FbSelf.attrib && !FbSelf.settable && !FbSelf.ignore
    ensures Call(FbSelf, n, NameArg(Remap(nm, name))) == Ok(Str(Text(n)))
    ensures ConvertField(Field(name, FbSelf), n, rec, nm) == Ok(rec[name := Str(Text(n))])
  {
  }

  /** fblistof(callable) maps the converter over the children of the element, keeping
      their number and order, and fails when some child fails. */
  lemma {:induction false} ListOfMapsChildren(d: Descriptor, n: Node)
    requires n.Element?
    ensures Call(FbListOfCallable(d), n, NoArg).Ok? <==>
              forall i :: 0 <= i < |n.children| ==> Call(d, n.children[i], NoArg).Ok?
    ensures Call(FbListOfCallable(d), n, NoArg).Ok? ==>
              var v := Call(FbListOfCallable(d), n, NoArg).value;
              && v.List? && |v.items| == |n.children|
              && forall i :: 0 <= i < |n.children| ==> Call(d, n.children[i], NoArg) == Ok(v.items[i])
  {
    var each := CallEach(d, n.children);
    assert each.Err? <==> exists i :: 0 <= i < |n.children| && Call(d, n.children[i], NoArg).Err?;
  }

  /** Every token converts on its own. */
  predicate TokensConvert(d: Descriptor, ts: seq<string>) {
    forall i :: 0 <= i < |ts| ==> Call(d, TextNode(ts[i]), NoArg).Ok?
  }

  /** Converting the tokens one text node each: it succeeds exactly when every token
      converts, and then holds each token's value. */
  lemma {:induction false} CallEachTokens(d: Descriptor, ts: seq<string>)
    ensures CallEach(d, TextNodes(ts)).Ok? <==> TokensConvert(d, ts)
    ensures CallEach(d, TextNodes(ts)).Ok? ==>
              var vs := CallEach(d, TextNodes(ts)).value;
              && |vs| == |ts|
              && forall i :: 0 <= i < |ts| ==> Call(d, TextNode(ts[i]), NoArg) == Ok(vs[i])
  {
    var each := CallEach(d, TextNodes(ts));
    if each.Ok? {
      forall i | 0 <= i < |ts|
        ensures Call(d, TextNode(ts[i]), NoArg) == Ok(each.value[i])
      {
        assert TextNodes(ts)[i] == TextNode(ts[i]);
      }
    } else {
      var i :| 0 <= i < |ts| && Call(d, TextNodes(ts)[i], NoArg).Err?;
      assert TextNodes(ts)[i] == TextNode(ts[i]);
    }
  }

  /** fbcommalistof converts each token of the element's text, in token order, and
      fails exactly when some token fails to convert. */
  lemma {:induction false} CommaListOfTokens(d: Descriptor, n: Node)
    ensures Call(FbCommaListOf(d), n, NoArg).Ok? <==> TokensConvert(d, Util.CommaOrSpaceSplit(Text(n)))
    ensures Call(FbCommaListOf(d), n, NoArg).Ok? ==>
              var ts := Util.CommaOrSpaceSplit(Text(n));
              var v := Call(FbCommaListOf(d), n, NoArg).value;
              && v.List? && |v.items| == |ts|
              && forall i :: 0 <= i < |ts| ==> Call(d, TextNode(ts[i]), NoArg) == Ok(v.items[i])
  {
    var ts := Util.CommaOrSpaceSplit(Text(n));
    var each := CallEach(d, TextNodes(ts));
    assert FbCommaListOf(d).conv == CommaListOf(d);
    assert Call(FbCommaListOf(d), n, NoArg) == if each.Ok? then Ok(List(each.value)) else Err(each.error);
    CallEachTokens(d, ts);
  }

  /** fbattr reads the named attribute of the element: None when it is absent, else the
      converter applied to the attribute's text. */
  lemma {:induction false} AttrReadsAttribute(d: Descriptor, n: Node, name: string)
    requires n.Element?
    ensures name !in n.attrs ==> Call(FbAttr(d), n, NameArg(name)) == Ok(Null)
    ensures name in n.attrs ==> Call(FbAttr(d), n, NameArg(name)) == Call(d, TextNode(n.attrs[name]), NoArg)
  {
  }

  /** The corrected _firstelem on a list-of-records converter: the first record the events
      element holds, or None when it holds none. */
  lemma {:induction false} FirstElemOfRecords(d: Descriptor, s: Schema, e: Node, nm: NameMap)
    requires d.conv == FirstElemForwarding(FbListOfSchema(s))
    requires e.Element? && ExtractItems(s, e.children, nm).Ok?
    ensures var rs := ExtractItems(s, e.children, nm).value;
            Call(d, e, NameMapArg(nm)) == Ok(if rs == [] then Null else Rec(rs[0]))
  {
    var rs := ExtractItems(s, e.children, nm).value;
    ListOfRecords(s, e, nm);
    assert First(List(Recs(rs))) == if rs == [] then Null else Rec(rs[0]);
  }

  /** fblistof(dict) extracts one record per item of the element, skipping the
      newline strings, and fails with the first item that fails to extract. */
  lemma {:induction false} ListOfRecords(s: Schema, e: Node, nm: NameMap)
    requires e.Element?
    ensures ExtractItems(s, e.children, nm).Ok? ==>
              Call(FbListOfSchema(s), e, NameMapArg(nm)) == Ok(List(Recs(ExtractItems(s, e.children, nm).value)))
    ensures ExtractItems(s, e.children, nm).Err? ==>
              Call(FbListOfSchema(s), e, NameMapArg(nm)) == Err(ExtractItems(s, e.children, nm).error)
  {
    assert FbListOfSchema(s).conv == ListOfSchema(s);
  }

  // ---------------------------------------------------------------- defects of types.py

  /** Every list-of-records converter built by fblistof as written fails with NameError
      where the corrected one reads, for instance, an element without children as the
      empty list. */
  lemma {:induction false} ListOfSchemaAsWrittenFails(s: Schema, n: Node, nm: NameMap)
    ensures Call(FbListOfAsWritten(DictArg(s)).value, n, NameMapArg(nm)) == Err(NameError("extract_all"))
    ensures n.Element? && n.children == [] ==> Call(FbListOf(DictArg(s)).value, n, NameMapArg(nm)) == Ok(List([]))
  {
    if n.Element? && n.children == [] {
      assert Kept(n.children) == [];
      assert ExtractEach(s, [], nm) == Ok([]);
      assert Recs([]) == [];
    }
  }

  /** fblatestevent as written never yields a value: _firstelem hides takes_map, so
      _convert calls it with the node alone and it calls the list-of-records converter
      without the name map it needs. */
  lemma {:induction false} LatestEventAsWrittenFails(s: Schema, n: Node, rec: Fields, nm: NameMap, name: string)
    requires n.Element?
    ensures ConvertField(Field(name, FbLatestEventAsWritten(s)), n, rec, nm).Err?
    ensures FindEither(n, Remap(nm, "events")).Ok? ==>
              ConvertField(Field(name, FbLatestEventAsWritten(s)), n, rec, nm) == Err(ArgumentCountError)
  {
    var d := FbLatestEventAsWritten(s);
    assert d.conv == FirstElem(FbListOfSchema(s));
    assert ReadName(Field(name, d)) == "events";
    var found := FindEither(n, Remap(nm, "events"));
    if found.Ok? {
      assert Call(FbListOfSchema(s), found.value, NoArg) == Err(ArgumentCountError);
      assert Call(d, found.value, NoArg) == Err(ArgumentCountError);
    }
  }

  /** The corrected fblatestevent stores the first event of the `events` element, or None
      when there are no events. */
  lemma {:induction false} LatestEventReadsFirst(s: Schema, n: Node, rec: Fields, nm: NameMap, name: string)
    requires FindEither(n, Remap(nm, "events")).Ok?
    requires ExtractItems(s, FindEither(n, Remap(nm, "events")).value.children, nm).Ok?
    ensures var rs := ExtractItems(s, FindEither(n, Remap(nm, "events")).value.children, nm).value;
            ConvertField(Field(name, FbLatestEvent(s)), n, rec, nm)
              == Ok(rec[name := if rs == [] then Null else Rec(rs[0])])
  {
    var d := FbLatestEvent(s);
    var e := FindEither(n, Remap(nm, "events")).value;
    assert ReadName(Field(name, d)) == "events" && !d.ignore && ExtraFor(d, rec, nm) == NameMapArg(nm);
    FirstElemOfRecords(d, s, e, nm);
  }
}
