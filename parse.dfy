/** fborm.parse: filling a record from a response element (`_convert`, `extract`),
    extracting and sorting many (`extract_all`, `_sort_by`), and the two directions of
    writing back: the column list (`keys2cols`) and the argument map (`fbargs`,
    `fbsetconvert`, `_dt2fbdt`). */
module Parse {
  import opened Wrappers
  import opened Types
  import opened Engine
  import Ordering
  import Util

  // ---------------------------------------------------------------- extract

  /** The jsontree that extract fills in place, field by field. */
  class Record {
    var fields: Fields

    constructor ()
      ensures fields == map[]
    {
      fields := map[];
    }
  }

  /** _convert(res, fbdata, name, conv, typemap, namemap): stores the converted field in
      res, or leaves res as it was when a lookup or the converter fails. */
  method Convert(res: Record, n: Node, name: string, conv: Descriptor, nm: NameMap)
    returns (outcome: Result<(), Error>)
    modifies res
    ensures ConvertField(Field(name, conv), n, old(res.fields), nm).Ok? ==>
              outcome.Ok? && res.fields == ConvertField(Field(name, conv), n, old(res.fields), nm).value
    ensures ConvertField(Field(name, conv), n, old(res.fields), nm).Err? ==>
              outcome == Err(ConvertField(Field(name, conv), n, old(res.fields), nm).error)
              && res.fields == old(res.fields)
  {
    var mapped := Remap(nm, ReadName(Field(name, conv)));
    if conv.ignore {
      return Ok(());
    } else if conv.attrib {
      var v := Call(conv, n, NameArg(mapped));
      if v.Err? {
        return Err(v.error);
      }
      res.fields := res.fields[name := v.value];
      return Ok(());
    }
    if n.TextNode? {
      return Err(NotAnElement);
    }
    var inner := FindIn(n.children, mapped);
    if inner.None? {
      inner := FindIn(n.children, Lower(mapped));
      if inner.None? {
        return Err(NotFound(mapped));
      }
    }
    var extra := if conv.takesMap then NameMapArg(nm)
                 else if conv.takesData then RecordArg(res.fields)
                 else NoArg;
    var v := Call(conv, inner.value, extra);
    if v.Err? {
      return Err(v.error);
    }
    res.fields := res.fields[name := v.value];
    return Ok(());
  }

  lemma {:induction false} PassAppend(fs: seq<Field>, f: Field, deferred: bool)
    ensures Pass(fs + [f], deferred) == Pass(fs, deferred) + (if f.desc.takesData == deferred then [f] else [])
  {
    if fs == [] {
      assert [] + [f] == [f];
    } else {
      assert (fs + [f])[1..] == fs[1..] + [f];
      PassAppend(fs[1..], f, deferred);
    }
  }

  lemma {:induction false} PassOfSuffix(s: Schema, i: nat, deferred: bool)
    requires i <= |s.fields|
    ensures forall f :: f in Pass(s.fields[i..], deferred) ==> f in s.fields
  {
    forall f | f in Pass(s.fields[i..], deferred) ensures f in s.fields {
      var k :| 0 <= k < |s.fields[i..]| && s.fields[i..][k] == f;
      assert s.fields[i + k] == f;
    }
  }

  /** One `_convert` of a sequence of them: the head field of fs. */
  method ConvertHead(res: Record, n: Node, s: Schema, f: Field, ghost fs: seq<Field>, nm: NameMap)
    returns (outcome: Result<(), Error>)
    requires fs != [] && fs[0] == f && forall g :: g in fs ==> g in s.fields
    modifies res
    ensures outcome.Ok? ==> ConvertSeq(s, fs, n, old(res.fields), nm) == ConvertSeq(s, fs[1..], n, res.fields, nm)
    ensures outcome.Err? ==> ConvertSeq(s, fs, n, old(res.fields), nm) == Err(outcome.error)
  {
    outcome := Convert(res, n, f.name, f.desc, nm);
  }

  /** extract's second loop: `for name, conv in late_processes: _convert(...)`. */
  method ConvertAll(res: Record, n: Node, s: Schema, fs: seq<Field>, nm: NameMap)
    returns (outcome: Result<(), Error>)
    requires forall f :: f in fs ==> f in s.fields
    modifies res
    ensures ConvertSeq(s, fs, n, old(res.fields), nm).Ok? ==>
              outcome.Ok? && res.fields == ConvertSeq(s, fs, n, old(res.fields), nm).value
    ensures ConvertSeq(s, fs, n, old(res.fields), nm).Err? ==>
              outcome == Err(ConvertSeq(s, fs, n, old(res.fields), nm).error)
  {
    var j := 0;
    while j < |fs|
      invariant 0 <= j <= |fs|
      invariant ConvertSeq(s, fs, n, old(res.fields), nm) == ConvertSeq(s, fs[j..], n, res.fields, nm)
    {
      assert fs[j..][1..] == fs[j + 1..];
      var step := ConvertHead(res, n, s, fs[j], fs[j..], nm);
      if step.Err? {
        return Err(step.error);
      }
      j := j + 1;
    }
    return Ok(());
  }

  /** Where field i goes in the two passes of extract: into exactly one of them. */
  lemma {:induction false} PassStep(s: Schema, i: nat)
    requires i < |s.fields|
    ensures s.fields[i].desc.takesData ==>
              && Pass(s.fields[..i + 1], true) == Pass(s.fields[..i], true) + [s.fields[i]]
              && Pass(s.fields[i..], false) == Pass(s.fields[i + 1..], false)
    ensures !s.fields[i].desc.takesData ==>
              && Pass(s.fields[..i + 1], true) == Pass(s.fields[..i], true)
              && Pass(s.fields[i..], false) != []
              && Pass(s.fields[i..], false)[0] == s.fields[i]
              && Pass(s.fields[i..], false)[1..] == Pass(s.fields[i + 1..], false)
  {
    var f := s.fields[i];
    assert s.fields[..i + 1] == s.fields[..i] + [f];
    PassAppend(s.fields[..i], f, true);
    assert s.fields[i..] == [f] + s.fields[i + 1..];
    assert s.fields[i..][1..] == s.fields[i + 1..];
    var rest := Pass(s.fields[i + 1..], false);
    if f.desc.takesData {
      assert [] + rest == rest;
    } else {
      assert Pass(s.fields[..i], true) + [] == Pass(s.fields[..i], true);
      assert ([f] + rest)[1..] == rest;
    }
  }

  /** One iteration of extract's first loop: field i is set aside when it takes the data
      and converted otherwise. `todo` is what is left of the first pass. */
  method FirstPassField(res: Record, n: Node, s: Schema, i: nat, late: seq<Field>,
                        ghost todo: seq<Field>, nm: NameMap)
    returns (late': seq<Field>, outcome: Result<(), Error>)
    requires i < |s.fields| && late == Pass(s.fields[..i], true)
    requires todo == Pass(s.fields[i..], false) && forall g :: g in todo ==> g in s.fields
    modifies res
    ensures late' == Pass(s.fields[..i + 1], true)
    ensures forall g :: g in Pass(s.fields[i + 1..], false) ==> g in s.fields
    ensures outcome.Ok? ==>
              ConvertSeq(s, todo, n, old(res.fields), nm)
              == ConvertSeq(s, Pass(s.fields[i + 1..], false), n, res.fields, nm)
    ensures outcome.Err? ==> ConvertSeq(s, todo, n, old(res.fields), nm) == Err(outcome.error)
  {
    var f := s.fields[i];
    PassStep(s, i);
    if f.desc.takesData {
      return late + [f], Ok(());
    }
    outcome := ConvertHead(res, n, s, f, todo, nm);
    return late, outcome;
  }

  /** extract's first loop: converts the fields that do not take the data, in typemap
      order, and returns the ones that do, for the second loop. */
  method FirstPass(res: Record, n: Node, s: Schema, nm: NameMap)
    returns (late: seq<Field>, outcome: Result<(), Error>)
    modifies res
    ensures outcome.Ok? ==> late == Pass(s.fields, true)
    ensures ConvertSeq(s, Pass(s.fields, false), n, old(res.fields), nm).Ok? ==>
              outcome.Ok? && res.fields == ConvertSeq(s, Pass(s.fields, false), n, old(res.fields), nm).value
    ensures ConvertSeq(s, Pass(s.fields, false), n, old(res.fields), nm).Err? ==>
              outcome == Err(ConvertSeq(s, Pass(s.fields, false), n, old(res.fields), nm).error)
  {
    late := [];
    var i := 0;
    PassOfSuffix(s, 0, false);
    assert s.fields[0..] == s.fields;
    while i < |s.fields|
      invariant 0 <= i <= |s.fields|
      invariant late == Pass(s.fields[..i], true)
      invariant forall g :: g in Pass(s.fields[i..], false) ==> g in s.fields
      invariant ConvertSeq(s, Pass(s.fields, false), n, old(res.fields), nm)
                == ConvertSeq(s, Pass(s.fields[i..], false), n, res.fields, nm)
    {
      var step;
      late, step := FirstPassField(res, n, s, i, late, Pass(s.fields[i..], false), nm);
      if step.Err? {
        return late, step;
      }
      i := i + 1;
    }
    assert s.fields[..i] == s.fields;
    return late, Ok(());
  }

  /** extract(fbdata, fbtypemap, name_map): a new record holding the fields of fbdata,
      converted in one pass over the typemap that sets the takes_data fields aside for a
      second pass. */
  method Extract(n: Node, s: Schema, nm: NameMap) returns (r: Result<Record, Error>)
    ensures ExtractSpec(s, n, nm).Ok? ==> r.Ok? && r.value.fields == ExtractSpec(s, n, nm).value
    ensures ExtractSpec(s, n, nm).Err? ==> r == Err(ExtractSpec(s, n, nm).error)
  {
    var res := new Record();
    var late, outcome := FirstPass(res, n, s, nm);
    if outcome.Err? {
      return Err(outcome.error);
    }
    outcome := ConvertAll(res, n, s, late, nm);
    if outcome.Err? {
      return Err(outcome.error);
    }
    return Ok(res);
  }

  // ---------------------------------------------------------------- extract_all, _sort_by

  /** The `sort_by` argument of extract_all: None, one field name, or a list of them. */
  datatype SortBy = NoSort | ByName(name: string) | ByNames(names: seq<string>)

  /** The names `_sort_by` sorts on, or None when sort_by is falsy (None, '' or an empty
      list) and extract_all does not sort. */
  function SortNames(sortBy: SortBy): Option<seq<string>> {
    match sortBy
    case NoSort => None
    case ByName(name) => if name == "" then None else Some([name])
    case ByNames(names) => if names == [] then None else Some(names)
  }

  /** `[item[name] for name in names]`: KeyError for the first name the record lacks. */
  function SortKey(names: seq<string>, rec: Fields): (r: Result<seq<Value>, Error>)
    ensures r.Ok? <==> forall i :: 0 <= i < |names| ==> names[i] in rec
    ensures r.Ok? ==> |r.value| == |names| && forall i :: 0 <= i < |names| ==> r.value[i] == rec[names[i]]
    ensures r.Err? ==> exists i :: 0 <= i < |names| && names[i] !in rec && r.error == KeyError(names[i])
  {
    if names == [] then Ok([])
    else if names[0] !in rec then Err(KeyError(names[0]))
    else
      var rest := SortKey(names[1..], rec);
      assert forall i :: 1 <= i < |names| ==> names[1..][i - 1] == names[i];
      if rest.Err? then
        assert exists i :: 0 <= i < |names[1..]| && names[1..][i] !in rec && rest.error == KeyError(names[1..][i]);
        Err(rest.error)
      else
        Ok([rec[names[0]]] + rest.value)
  }

  /** Each record paired with its sort key, in order; the first KeyError otherwise. */
  function Keyed(names: seq<string>, recs: seq<Fields>): (r: Result<seq<(seq<Value>, Fields)>, Error>)
    ensures r.Ok? ==> |r.value| == |recs|
    ensures r.Ok? ==> forall i :: 0 <= i < |recs| ==> r.value[i].1 == recs[i] && SortKey(names, recs[i]) == Ok(r.value[i].0)
    ensures r.Err? <==> exists i :: 0 <= i < |recs| && SortKey(names, recs[i]).Err?
  {
    if recs == [] then Ok([])
    else
      var key :- SortKey(names, recs[0]);
      var rest :- Keyed(names, recs[1..]);
      Ok([(key, recs[0])] + rest)
  }

  function Records(ps: seq<(seq<Value>, Fields)>): (r: seq<Fields>)
    ensures |r| == |ps| && forall i :: 0 <= i < |ps| ==> r[i] == ps[i].1
  {
    seq(|ps|, i requires 0 <= i < |ps| => ps[i].1)
  }

  /** `sorted(records, key=_sort_by(names))` */
  function SortRecordsBy(names: seq<string>, recs: seq<Fields>): Result<seq<Fields>, Error> {
    var keyed :- Keyed(names, recs);
    Ok(Records(Ordering.SortByKey(keyed)))
  }

  /** extract_all(itemiter, type_map, name_map, sort_by): the records of the items that
      are not `'\n'`, in order, or sorted on the named fields when sort_by is truthy. */
  function ExtractAll(s: Schema, items: seq<Node>, nm: NameMap, sortBy: SortBy): (r: Result<seq<Fields>, Error>)
    ensures r.Ok? ==> ExtractItems(s, items, nm).Ok? && multiset(r.value) == multiset(ExtractItems(s, items, nm).value)
  {
    var recs :- ExtractItems(s, items, nm);
    match SortNames(sortBy)
    case None => Ok(recs)
    case Some(names) =>
      SortRecordsBySorts(names, recs);
      SortRecordsBy(names, recs)
  }

  lemma {:induction false} RecordsCons(p: (seq<Value>, Fields), ps: seq<(seq<Value>, Fields)>)
    ensures Records([p] + ps) == [p.1] + Records(ps)
  {
    var l, r := Records([p] + ps), [p.1] + Records(ps);
    assert |l| == |r|;
    forall i | 0 <= i < |l| ensures l[i] == r[i] {
      if i > 0 {
        assert ([p] + ps)[i] == ps[i - 1];
      }
    }
  }

  lemma {:induction false} InsertRecords(x: (seq<Value>, Fields), xs: seq<(seq<Value>, Fields)>)
    ensures multiset(Records(Ordering.Insert(x, xs))) == multiset(Records(xs)) + multiset{x.1}
  {
    if xs == [] {
      RecordsCons(x, []);
      assert [x] + [] == [x];
    } else if Ordering.KeyLe(x.0, xs[0].0) {
      RecordsCons(x, xs);
    } else {
      InsertRecords(x, xs[1..]);
      RecordsCons(xs[0], Ordering.Insert(x, xs[1..]));
      RecordsCons(xs[0], xs[1..]);
      assert xs == [xs[0]] + xs[1..];
    }
  }

  lemma {:induction false} RecordsHead(xs: seq<(seq<Value>, Fields)>)
    requires xs != []
    ensures Records(xs) == [xs[0].1] + Records(xs[1..])
  {
    assert xs == [xs[0]] + xs[1..];
    RecordsCons(xs[0], xs[1..]);
  }

  /** Sorting the keyed records reorders the records and nothing else. */
  lemma {:induction false} SortRecords(xs: seq<(seq<Value>, Fields)>)
    ensures multiset(Records(Ordering.SortByKey(xs))) == multiset(Records(xs))
  {
    if xs != [] {
      var rest := Ordering.SortByKey(xs[1..]);
      assert Ordering.SortByKey(xs) == Ordering.Insert(xs[0], rest);
      SortRecords(xs[1..]);
      InsertRecords(xs[0], rest);
      RecordsHead(xs);
    }
  }

  /** Sorting keeps every record paired with its own key. */
  lemma {:induction false} SortKeepsKeys(names: seq<string>, keyed: seq<(seq<Value>, Fields)>)
    requires forall j :: 0 <= j < |keyed| ==> SortKey(names, keyed[j].1) == Ok(keyed[j].0)
    ensures var sorted := Ordering.SortByKey(keyed);
            forall i :: 0 <= i < |sorted| ==> SortKey(names, sorted[i].1) == Ok(sorted[i].0)
  {
    var sorted := Ordering.SortByKey(keyed);
    forall i | 0 <= i < |sorted| ensures SortKey(names, sorted[i].1) == Ok(sorted[i].0) {
      assert sorted[i] in multiset(sorted);
      assert sorted[i] in multiset(keyed);
      var j :| 0 <= j < |keyed| && keyed[j] == sorted[i];
    }
  }

  /** sorted with the key of _sort_by: the first KeyError, or the same records (as a
      multiset) in the order of their keys. */
  lemma {:induction false} SortRecordsBySorts(names: seq<string>, recs: seq<Fields>)
    ensures SortRecordsBy(names, recs).Err? <==> exists i :: 0 <= i < |recs| && SortKey(names, recs[i]).Err?
    ensures SortRecordsBy(names, recs).Ok? ==>
              var r := SortRecordsBy(names, recs).value;
              && multiset(r) == multiset(recs)
              && (forall i :: 0 <= i < |r| ==> SortKey(names, r[i]).Ok?)
              && forall i :: 0 <= i < |r| - 1 ==> Ordering.KeyLe(SortKey(names, r[i]).value, SortKey(names, r[i + 1]).value)
  {
    if Keyed(names, recs).Ok? {
      var keyed := Keyed(names, recs).value;
      var sorted := Ordering.SortByKey(keyed);
      var r := Records(sorted);
      assert SortRecordsBy(names, recs) == Ok(r);
      SortRecords(keyed);
      assert Records(keyed) == recs;
      Ordering.SortByKeySorted(keyed);
      SortKeepsKeys(names, keyed);
      forall i | 0 <= i < |r| ensures SortKey(names, r[i]) == Ok(sorted[i].0) {
      }
    }
  }

  /** Without sort_by, extract_all returns one record per item that is not `'\n'`, in the
      items' order. */
  lemma {:induction false} ExtractAllInOrder(s: Schema, items: seq<Node>, nm: NameMap, sortBy: SortBy)
    requires SortNames(sortBy).None?
    ensures ExtractAll(s, items, nm, sortBy).Err? <==>
              exists i :: 0 <= i < |Kept(items)| && ExtractSpec(s, Kept(items)[i], nm).Err?
    ensures ExtractAll(s, items, nm, sortBy).Ok? ==>
              var r := ExtractAll(s, items, nm, sortBy).value;
              && |r| == |Kept(items)|
              && forall i :: 0 <= i < |r| ==> ExtractSpec(s, Kept(items)[i], nm) == Ok(r[i])
  {
    ExtractEachPerItem(s, Kept(items), nm);
    assert ExtractItems(s, items, nm) == ExtractEach(s, Kept(items), nm);
  }

  /** A single name sorts as the one-element list of that name. */
  lemma {:induction false} SortByOneName(s: Schema, items: seq<Node>, nm: NameMap, name: string)
    requires name != ""
    ensures ExtractAll(s, items, nm, ByName(name)) == ExtractAll(s, items, nm, ByNames([name]))
  {
  }

  /** With sort_by, extract_all fails when an item fails to extract or a record lacks a
      sort field; otherwise it returns the same records (as a multiset) ordered by their
      sort keys. */
  lemma {:induction false} ExtractAllSorted(s: Schema, items: seq<Node>, nm: NameMap, sortBy: SortBy, names: seq<string>)
    requires SortNames(sortBy) == Some(names)
    ensures ExtractAll(s, items, nm, sortBy).Err? <==>
              || ExtractItems(s, items, nm).Err?
              || exists i :: 0 <= i < |ExtractItems(s, items, nm).value| && SortKey(names, ExtractItems(s, items, nm).value[i]).Err?
    ensures ExtractAll(s, items, nm, sortBy).Ok? ==>
              var r := ExtractAll(s, items, nm, sortBy).value;
              && multiset(r) == multiset(ExtractItems(s, items, nm).value)
              && (forall i :: 0 <= i < |r| ==> SortKey(names, r[i]).Ok?)
              && forall i :: 0 <= i < |r| - 1 ==> Ordering.KeyLe(SortKey(names, r[i]).value, SortKey(names, r[i + 1]).value)
  {
    if ExtractItems(s, items, nm).Ok? {
      SortRecordsBySorts(names, ExtractItems(s, items, nm).value);
    }
  }

  // ---------------------------------------------------------------- keys2cols

  /** A private field: its name starts with an underscore. */
  predicate IsPrivate(name: string) {
    |name| > 0 && name[0] == '_'
  }

  /** `getattr(conv, 'colname', name)` */
  function ColName(f: Field): string {
    if f.desc.colname.Some? then f.desc.colname.value else f.name
  }

  /** A field keys2cols asks the server for. */
  predicate Requested(f: Field) {
    !IsPrivate(f.name) && !f.desc.attrib
  }

  /** The requested fields of fs, in order. */
  function RequestedFields(fs: seq<Field>): (r: seq<Field>)
    ensures |r| <= |fs|
    ensures forall f :: f in r <==> f in fs && Requested(f)
  {
    if fs == [] then []
    else
      var rest := RequestedFields(fs[1..]);
      assert forall f :: f in fs <==> f == fs[0] || f in fs[1..];
      if Requested(fs[0]) then [fs[0]] + rest else rest
  }

  /** The column names of the requested fields, through the name map, in order. */
  function Columns(s: Schema, nm: NameMap): (r: seq<string>) {
    var fs := RequestedFields(s.fields);
    seq(|fs|, i requires 0 <= i < |fs| => Remap(nm, ColName(fs[i])))
  }

  /** keys2cols(fbtypemap, namemap): when no column name is empty or holds a comma or
      whitespace, the server's comma_or_space_split of the column list gives back the
      columns, in order. */
  function Keys2Cols(s: Schema, nm: NameMap): (r: string)
    ensures (forall c :: c in Columns(s, nm) ==> c != "" && Util.NoSeparator(c)) ==>
              Util.CommaOrSpaceSplit(r) == Columns(s, nm)
  {
    var cs := Columns(s, nm);
    assert (forall c :: c in cs ==> c != "" && Util.NoSeparator(c)) ==>
             Util.CommaOrSpaceSplit(Util.Join(cs, ",")) == cs by {
      if forall c :: c in cs ==> c != "" && Util.NoSeparator(c) {
        assert forall i :: 0 <= i < |cs| ==> cs[i] in cs;
        Util.SplitJoin(cs);
      }
    }
    Util.Join(cs, ",")
  }

  /** keys2cols names exactly the requested fields: each through the name map applied to
      its colname, or to its own name when it has none. */
  lemma {:induction false} ColumnsAreRequested(s: Schema, nm: NameMap, c: string)
    ensures c in Columns(s, nm) <==> exists f :: f in s.fields && Requested(f) && c == Remap(nm, ColName(f))
  {
    var fs := RequestedFields(s.fields);
    var cs := Columns(s, nm);
    if c in cs {
      var i :| 0 <= i < |cs| && cs[i] == c;
      assert fs[i] in fs;
    }
    if exists f :: f in s.fields && Requested(f) && c == Remap(nm, ColName(f)) {
      var f :| f in s.fields && Requested(f) && c == Remap(nm, ColName(f));
      assert f in fs;
      var i :| 0 <= i < |fs| && fs[i] == f;
      assert cs[i] == c;
    }
  }

  /** A typemap made of attribute readers and private fields requests no column. */
  lemma {:induction false} Keys2ColsOfAttributes(s: Schema, nm: NameMap)
    requires forall i :: 0 <= i < |s.fields| ==> !Requested(s.fields[i])
    ensures Keys2Cols(s, nm) == ""
  {
    NothingRequested(s.fields);
  }

  lemma {:induction false} NothingRequested(fs: seq<Field>)
    requires forall i :: 0 <= i < |fs| ==> !Requested(fs[i])
    ensures RequestedFields(fs) == []
  {
    if fs != [] {
      NothingRequested(fs[1..]);
    }
  }

  // ---------------------------------------------------------------- fbsetconvert, _dt2fbdt

  /** `s.split('.')[0]`: s up to its first dot. */
  function BeforeDot(s: string): (r: string)
    ensures r <= s && '.' !in r
    ensures |r| < |s| ==> s[|r|] == '.'
  {
    if s == [] || s[0] == '.' then []
    else [s[0]] + BeforeDot(s[1..])
  }

  /** _dt2fbdt: isoformat without its fraction of a second, in UTC notation. It drops
      the microseconds isoformat writes: it is the date and time to the second, then `Z`. */
  function Dt2FbDt(d: Timestamp): (r: string)
    ensures r == DatePart(d) + "Z"
  {
    NoDotInDigits(Pad(d.year, 4));
    NoDotInDigits(Pad(d.month, 2));
    NoDotInDigits(Pad(d.day, 2));
    NoDotInDigits(Pad(d.hour, 2));
    NoDotInDigits(Pad(d.minute, 2));
    NoDotInDigits(Pad(d.second, 2));
    assert '.' !in DatePart(d);
    BeforeDotOf(DatePart(d), if d.microsecond != 0 then "." + Pad(d.microsecond, 6) else "");
    BeforeDot(IsoFormat(d)) + "Z"
  }

  /** A record, or a list holding one at any depth. */
  predicate HoldsRecord(v: Value)
    decreases v
  {
    match v
    case Rec(_) => true
    case List(xs) => exists i :: 0 <= i < |xs| && HoldsRecord(xs[i])
    case _ => false
  }

  /** fbsetconvert: a datetime as _dt2fbdt, a list as the comma-join of its items,
      anything else as its unicode() form; the model has a string form for every value
      but a record. */
  function FbSetConvert(v: Value): (r: Result<string, Error>)
    ensures r.Err? <==> HoldsRecord(v)
    ensures r.Err? ==> r.error == UnmodelledStringForm
    decreases v, 1
  {
    match v
    case Date(d) => Ok(Dt2FbDt(d))
    case List(xs) =>
      var parts :- FbSetConvertAll(xs);
      Ok(Util.Join(parts, ","))
    case Int(i) => Ok(IntToDecimal(i))
    case Bool(b) => Ok(if b then "True" else "False")
    case Str(t) => Ok(t)
    case Null => Ok("None")
    case Rec(_) => Err(UnmodelledStringForm)
  }

  /** `fbsetconvert(v) for v in value`: the first failure, or one string per item. */
  function FbSetConvertAll(xs: seq<Value>): (r: Result<seq<string>, Error>)
    ensures r.Ok? ==> |r.value| == |xs|
    ensures r.Ok? ==> forall i :: 0 <= i < |xs| ==> FbSetConvert(xs[i]) == Ok(r.value[i])
    ensures r.Err? <==> exists i :: 0 <= i < |xs| && FbSetConvert(xs[i]).Err?
    ensures r.Err? ==> r.error == UnmodelledStringForm
    decreases xs, 0
  {
    if xs == [] then Ok([])
    else
      var first :- FbSetConvert(xs[0]);
      var rest :- FbSetConvertAll(xs[1..]);
      Ok([first] + rest)
  }

  lemma {:induction false} BeforeDotOf(a: string, b: string)
    requires '.' !in a && (b == [] || b[0] == '.')
    ensures BeforeDot(a + b) == a
  {
    if a == [] {
      assert a + b == b;
    } else {
      assert (a + b)[1..] == a[1..] + b;
      BeforeDotOf(a[1..], b);
    }
  }

  lemma {:induction false} NoDotInDigits(t: string)
    requires AllDigits(t)
    ensures '.' !in t
  {
    forall k | 0 <= k < |t|
      ensures t[k] != '.'
    {
      assert IsDigit(t[k]);
    }
  }

  // ---------------------------------------------------------------- write, then read back

  /** A datetime written by fbsetconvert reads back through fbdatetime as the same
      datetime to the second. */
  lemma {:induction false} DateRoundTrip(d: Timestamp)
    ensures FbSetConvert(Date(d)).Ok?
    ensures ConvertDateTime(TextNode(FbSetConvert(Date(d)).value)) == Ok(Date(d.(microsecond := 0)))
  {
    ParseFbDateTimeOfLayout(d);
  }

  /** Every datetime fbdatetime reads is written back by fbsetconvert as the very text it
      was read from; the empty-string sentinel is written back as the empty text. */
  lemma {:induction false} DateReadWrite(t: string)
    requires ConvertDateTime(TextNode(t)).Ok?
    ensures FbSetConvert(ConvertDateTime(TextNode(t)).value) == Ok(t)
  {
    assert Text(TextNode(t)) == t;
    if t != "" {
      var d := ParseFbDateTime(t).value;
      assert FbSetConvert(Date(d)) == Ok(Dt2FbDt(d));
      assert ConvertDateTime(TextNode(t)) == Ok(Date(d));
      LayoutOfParseFbDateTime(t);
      }
  }

  /** An int written by fbsetconvert reads back through fbint as the same int. */
  lemma {:induction false} IntRoundTrip(i: int)
    ensures FbSetConvert(Int(i)).Ok?
    ensures ConvertInt(TextNode(FbSetConvert(Int(i)).value)) == Ok(Int(i))
  {
    ParseDecimalOfDecimal(i);
    assert IntToDecimal(i) != "";
  }

  /** A string written by fbsetconvert reads back through fbstring unchanged. */
  lemma {:induction false} StringRoundTrip(t: string)
    ensures FbSetConvert(Str(t)) == Ok(t)
    ensures ConvertString(TextNode(t)) == Str(t)
  {
  }

  /** fbbool reads only the exact text `true` as true, but fbsetconvert writes a bool as
      `True` or `False`: a bool written back does not read back as true. */
  lemma {:induction false} BoolWriteIsNotRead(b: bool)
    ensures ConvertBool(TextNode("true")) == Bool(true)
    ensures FbSetConvert(Bool(b)).Ok?
    ensures ConvertBool(TextNode(FbSetConvert(Bool(b)).value)) == Bool(false)
  {
  }

  function Ints(xs: seq<int>): (r: seq<Value>)
    ensures |r| == |xs| && forall i :: 0 <= i < |xs| ==> r[i] == Int(xs[i])
  {
    seq(|xs|, i requires 0 <= i < |xs| => Int(xs[i]))
  }

  lemma {:induction false} DecimalIsToken(i: int)
    ensures IntToDecimal(i) != "" && Util.NoSeparator(IntToDecimal(i))
  {
    var t := IntToDecimal(i);
    var digits := NatToDecimal(if i < 0 then -i else i);
    forall k | 0 <= k < |t|
      ensures !Util.IsSeparator(t[k])
    {
      if i < 0 && k == 0 {
        assert t[k] == '-';
      } else if i < 0 {
        assert t[k] == digits[k - 1] && IsDigit(digits[k - 1]);
      } else {
        assert IsDigit(digits[k]);
      }
    }
  }

  /** The decimal spellings of xs. */
  function Decimals(xs: seq<int>): (r: seq<string>)
    ensures |r| == |xs| && forall i :: 0 <= i < |xs| ==> r[i] == IntToDecimal(xs[i])
  {
    seq(|xs|, i requires 0 <= i < |xs| => IntToDecimal(xs[i]))
  }

  lemma {:induction false} SetConvertInts(xs: seq<int>)
    ensures FbSetConvertAll(Ints(xs)) == Ok(Decimals(xs))
  {
    var parts := FbSetConvertAll(Ints(xs));
    assert parts.Ok?;
    assert parts.value == Decimals(xs);
  }

  lemma {:induction false} CallEachDecimals(xs: seq<int>)
    ensures CallEach(FbInt, TextNodes(Decimals(xs))) == Ok(Ints(xs))
  {
    var nodes := TextNodes(Decimals(xs));
    forall i | 0 <= i < |nodes|
      ensures Call(FbInt, nodes[i], NoArg) == Ok(Ints(xs)[i])
    {
      IntRoundTrip(xs[i]);
      ScalarCalls(nodes[i]);
    }
    var each := CallEach(FbInt, nodes);
    assert each.Ok?;
    assert each.value == Ints(xs);
  }

  /** The comma-join of integer spellings splits back into those spellings. */
  lemma {:induction false} DecimalsSplitBack(xs: seq<int>)
    ensures Util.CommaOrSpaceSplit(Util.Join(Decimals(xs), ",")) == Decimals(xs)
  {
    var ts := Decimals(xs);
    forall i | 0 <= i < |ts|
      ensures ts[i] != "" && Util.NoSeparator(ts[i])
    {
      DecimalIsToken(xs[i]);
    }
    Util.SplitJoin(ts);
  }

  /** A list of ints written by fbsetconvert (a comma-join) reads back through
      fbcommalistof(fbint) as the same list. */
  lemma {:induction false} IntListRoundTrip(xs: seq<int>)
    ensures FbSetConvert(List(Ints(xs))) == Ok(Util.Join(Decimals(xs), ","))
    ensures Call(FbCommaListOf(FbInt), TextNode(Util.Join(Decimals(xs), ",")), NoArg) == Ok(List(Ints(xs)))
  {
    SetConvertInts(xs);
    DecimalsSplitBack(xs);
    CallEachDecimals(xs);
    assert FbCommaListOf(FbInt).conv == CommaListOf(FbInt);
  }

  // ---------------------------------------------------------------- fbargs

  /** `getattr(fbtypemap.get(name), 'settable', True)`, with the private-name filter:
      an item fbargs passes on. A name the typemap lacks is passed on. */
  predicate Writable(s: Schema, name: string) {
    var d := Lookup(s.fields, name);
    !IsPrivate(name) && (d.None? || d.value.settable)
  }

  /** The argument name of an item: its field's setname, or its own name, through the
      name map. */
  function ArgName(s: Schema, nm: NameMap, name: string): string {
    var d := Lookup(s.fields, name);
    Remap(nm, if d.Some? && d.value.setname.Some? then d.value.setname.value else name)
  }

  /** The argument value of an item: its field's setconvert, or fbsetconvert. */
  function ArgValue(s: Schema, name: string, v: Value): Result<string, Error> {
    var d := Lookup(s.fields, name);
    if d.Some? && d.value.setconvert.Some? then Ok(d.value.setconvert.value(v)) else FbSetConvert(v)
  }

  /** An item whose name the typemap lacks is written under its own name, through the
      name map, with fbsetconvert; an item with a private name is never written. */
  lemma {:induction false} UnknownNameArgument(s: Schema, nm: NameMap, name: string, v: Value)
    requires name !in Names(s)
    ensures Writable(s, name) <==> !IsPrivate(name)
    ensures ArgName(s, nm, name) == Remap(nm, name)
    ensures ArgValue(s, name, v) == FbSetConvert(v)
  {
    assert forall i :: 0 <= i < |s.fields| ==> s.fields[i].name in Names(s);
  }

  /** fbargs(data, fbtypemap, namemap), the items of `data` listed in its iteration order:
      a dict built from the writable items in order, so that a later item replaces an
      earlier one with the same argument name; the first conversion to fail raises. */
  function FbArgs(items: seq<(string, Value)>, s: Schema, nm: NameMap): Result<map<string, string>, Error> {
    if items == [] then Ok(map[])
    else
      var args :- FbArgs(items[..|items| - 1], s, nm);
      var (name, v) := items[|items| - 1];
      if Writable(s, name) then
        var a :- ArgValue(s, name, v);
        Ok(args[ArgName(s, nm, name) := a])
      else Ok(args)
  }

  /** fbargs fails exactly when some writable item's value cannot be converted, and then
      with the error of the first such item. */
  lemma {:induction false} FbArgsFails(items: seq<(string, Value)>, s: Schema, nm: NameMap)
    ensures FbArgs(items, s, nm).Err? <==>
      exists i :: 0 <= i < |items| && Writable(s, items[i].0) && ArgValue(s, items[i].0, items[i].1).Err?
    ensures FbArgs(items, s, nm).Err? ==>
      exists i :: 0 <= i < |items| && Writable(s, items[i].0) && ArgValue(s, items[i].0, items[i].1) == Err(FbArgs(items, s, nm).error)
        && forall j :: 0 <= j < i && Writable(s, items[j].0) ==> ArgValue(s, items[j].0, items[j].1).Ok?
  {
    if items != [] {
      var n := |items| - 1;
      var front := items[..n];
      FbArgsFails(front, s, nm);
      assert forall i :: 0 <= i < n ==> front[i] == items[i];
    }
  }

  /** The arguments fbargs builds are named exactly after the writable items. */
  lemma {:induction false} FbArgsKeys(items: seq<(string, Value)>, s: Schema, nm: NameMap, k: string)
    requires FbArgs(items, s, nm).Ok?
    ensures k in FbArgs(items, s, nm).value <==>
      exists i :: 0 <= i < |items| && Writable(s, items[i].0) && ArgName(s, nm, items[i].0) == k
  {
    if items != [] {
      var n := |items| - 1;
      var front := items[..n];
      FbArgsKeys(front, s, nm, k);
      assert forall i :: 0 <= i < n ==> front[i] == items[i];
    }
  }

  /** Each argument holds the value of the last writable item with that argument name. */
  lemma {:induction false} FbArgsLastWriter(items: seq<(string, Value)>, s: Schema, nm: NameMap, i: nat)
    requires FbArgs(items, s, nm).Ok?
    requires i < |items| && Writable(s, items[i].0)
    requires forall j :: i < j < |items| && Writable(s, items[j].0) ==>
               ArgName(s, nm, items[j].0) != ArgName(s, nm, items[i].0)
    ensures ArgValue(s, items[i].0, items[i].1).Ok?
    ensures ArgName(s, nm, items[i].0) in FbArgs(items, s, nm).value
    ensures FbArgs(items, s, nm).value[ArgName(s, nm, items[i].0)] == ArgValue(s, items[i].0, items[i].1).value
  {
    var n := |items| - 1;
    var front := items[..n];
    if i < n {
      assert front[i] == items[i];
      assert forall j :: i < j < n ==> front[j] == items[j];
      FbArgsLastWriter(front, s, nm, i);
    }
  }
}
