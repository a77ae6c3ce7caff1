/** fborm.types: the wire tree, the values records hold, the scalar converters
    (fbint, fbbool, fbstring, fbdatetime) and the combinators that build converter
    descriptors. What a combinator DOES when it is called is in module Engine, because
    calling a list-of-schema converter recurses into extraction. */
module Types {
  import opened Wrappers
  import Util

  // ---------------------------------------------------------------- the wire tree

  /** A node of the parsed response as BeautifulSoup presents it: an element (tag,
      attribute table, children in document order) or a bare string. A bare string
      also stands for the text-only object `_obj(text=...)` that fbcommalistof and
      fbattr build: both have a text and nothing else. */
  datatype Node =
    | Element(tag: string, attrs: map<string, string>, children: seq<Node>)
    | TextNode(content: string)

  /** `.text`: every string below the node, in document order. */
  function Text(n: Node): string
    decreases n, 1
  {
    match n
    case TextNode(c) => c
    case Element(_, _, cs) => TextOfAll(cs)
  }

  function TextOfAll(cs: seq<Node>): string
    decreases cs, 0
  {
    if cs == [] then "" else Text(cs[0]) + TextOfAll(cs[1..])
  }

  /** Some descendant of the nodes cs (at any depth) is an element tagged `name`. */
  predicate Occurs(cs: seq<Node>, name: string)
    decreases cs
  {
    exists i :: 0 <= i < |cs| && cs[i].Element? && (cs[i].tag == name || Occurs(cs[i].children, name))
  }

  /** BeautifulSoup's `find(name)` over the descendants cs of a tag: the first element
      tagged `name` in document (pre-)order. */
  function FindIn(cs: seq<Node>, name: string): (r: Option<Node>)
    ensures r.Some? ==> r.value.Element? && r.value.tag == name
    decreases cs
  {
    if cs == [] then None
    else match cs[0]
      case TextNode(_) => FindIn(cs[1..], name)
      case Element(t, _, kids) =>
        if t == name then Some(cs[0])
        else
          var below := FindIn(kids, name);
          if below.Some? then below else FindIn(cs[1..], name)
  }

  /** find succeeds exactly when such a descendant exists. */
  lemma {:induction false} FindInFindsOccurrence(cs: seq<Node>, name: string)
    ensures FindIn(cs, name).Some? <==> Occurs(cs, name)
    decreases cs
  {
    if cs != [] {
      var rest := cs[1..];
      FindInFindsOccurrence(rest, name);
      assert Occurs(rest, name) ==> Occurs(cs, name) by {
        if Occurs(rest, name) {
          var i :| 0 <= i < |rest| && rest[i].Element? && (rest[i].tag == name || Occurs(rest[i].children, name));
          assert cs[i + 1] == rest[i];
        }
      }
      assert Occurs(cs, name) ==> (cs[0].Element? && (cs[0].tag == name || Occurs(cs[0].children, name))) || Occurs(rest, name) by {
        if Occurs(cs, name) {
          var i :| 0 <= i < |cs| && cs[i].Element? && (cs[i].tag == name || Occurs(cs[i].children, name));
          if i > 0 { assert rest[i - 1] == cs[i]; }
        }
      }
      if cs[0].Element? {
        FindInFindsOccurrence(cs[0].children, name);
      }
    }
  }

  /** The elements among the nodes cs and below them, in document (pre-)order: each
      element comes before its own descendants, which come before its later siblings. */
  function Descendants(cs: seq<Node>): seq<Node>
    decreases cs
  {
    if cs == [] then []
    else
      (match cs[0]
       case TextNode(_) => []
       case Element(_, _, kids) => [cs[0]] + Descendants(kids))
      + Descendants(cs[1..])
  }

  /** The first element of es tagged `name`. */
  function FirstTagged(es: seq<Node>, name: string): (r: Option<Node>)
    ensures r.Some? ==> exists i :: 0 <= i < |es| && es[i] == r.value && es[i].Element? && es[i].tag == name
                                    && forall j :: 0 <= j < i ==> !(es[j].Element? && es[j].tag == name)
    ensures r.None? <==> forall i :: 0 <= i < |es| ==> !(es[i].Element? && es[i].tag == name)
  {
    if es == [] then None
    else if es[0].Element? && es[0].tag == name then
      Some(es[0])
    else
      var r := FirstTagged(es[1..], name);
      assert forall i :: 1 <= i < |es| ==> es[1..][i - 1] == es[i];
      r
  }

  lemma {:induction false} FirstTaggedAppend(a: seq<Node>, b: seq<Node>, name: string)
    ensures FirstTagged(a + b, name) == if FirstTagged(a, name).Some? then FirstTagged(a, name) else FirstTagged(b, name)
  {
    if a != [] {
      assert (a + b)[0] == a[0] && (a + b)[1..] == a[1..] + b;
      FirstTaggedAppend(a[1..], b, name);
    } else {
      assert a + b == b;
    }
  }

  /** find returns the first element tagged `name` in document order, not merely some
      element with that tag. */
  lemma {:induction false} FindInIsFirstInDocumentOrder(cs: seq<Node>, name: string)
    ensures FindIn(cs, name) == FirstTagged(Descendants(cs), name)
    decreases cs
  {
    if cs != [] {
      var rest := cs[1..];
      FindInIsFirstInDocumentOrder(rest, name);
      match cs[0]
      case TextNode(_) =>
        assert Descendants(cs) == [] + Descendants(rest);
        assert [] + Descendants(rest) == Descendants(rest);
      case Element(t, a, kids) =>
        var head := [cs[0]] + Descendants(kids);
        assert Descendants(cs) == head + Descendants(rest);
        FirstTaggedAppend(head, Descendants(rest), name);
        FirstTaggedAppend([cs[0]], Descendants(kids), name);
        if t != name {
          FindInIsFirstInDocumentOrder(kids, name);
          assert FirstTagged([cs[0]], name) == None by {
            assert [cs[0]][1..] == [];
          }
          assert [] + Descendants(kids) == Descendants(kids);
        }
    }
  }

  /** ASCII lower case, as `lower()` acts on tag names. */
  function Lower(s: string): (r: string)
    ensures |r| == |s|
    ensures forall i :: 0 <= i < |s| && !('A' <= s[i] <= 'Z') ==> r[i] == s[i]
    ensures forall i :: 0 <= i < |s| && 'A' <= s[i] <= 'Z' ==> 'a' <= r[i] <= 'z' && r[i] as int == s[i] as int + 32
  {
    seq(|s|, i requires 0 <= i < |s| => if 'A' <= s[i] <= 'Z' then (s[i] as int + 32) as char else s[i])
  }

  // ---------------------------------------------------------------- values

  /** datetime.datetime; a value produced by fbdatetime never has microseconds. */
  datatype DateTime = DateTime(year: int, month: int, day: int,
                               hour: int, minute: int, second: int, microsecond: int)

  function DaysInMonth(year: int, month: int): int {
    if month == 2 then
      (if year % 4 == 0 && (year % 100 != 0 || year % 400 == 0) then 29 else 28)
    else if month == 4 || month == 6 || month == 9 || month == 11 then 30
    else 31
  }

  /** The ranges the datetime constructor accepts. */
  predicate ValidDateTime(d: DateTime) {
    && 1 <= d.year <= 9999
    && 1 <= d.month <= 12
    && 1 <= d.day <= DaysInMonth(d.year, d.month)
    && 0 <= d.hour < 24 && 0 <= d.minute < 60 && 0 <= d.second < 60
    && 0 <= d.microsecond < 1000000
  }

  /** A datetime object: only valid field combinations can be constructed. */
  type Timestamp = d: DateTime | ValidDateTime(d) witness DateTime(1, 1, 1, 0, 0, 0, 0)

  /** A value a converter produces or a record holds. List also stands for a tuple. */
  datatype Value =
    | Int(i: int)
    | Bool(b: bool)
    | Str(s: string)
    | Date(dt: Timestamp)
    | Null
    | List(items: seq<Value>)
    | Rec(fields: map<string, Value>)

  /** fbdatetime's result for empty text: the empty string itself. */
  const EmptyDate: Value := Str("")

  /** Python's truth value of a converted value. */
  predicate Truthy(v: Value) {
    match v
    case Int(i) => i != 0
    case Bool(b) => b
    case Str(s) => s != ""
    case Date(_) => true
    case Null => false
    case List(xs) => xs != []
    case Rec(m) => |m| != 0
  }

  /** The Python exceptions the core can raise. */
  datatype Error =
    | ValueError(text: string)        // int() or strptime rejected the text
    | NotFound(name: string)          // _convert: no element under the wire name nor its lower case
    | ArgumentCountError              // a converter called with the wrong number of arguments
    | KeyError(key: string)           // a record lacks a field a condition or a sort key names
    | NotAnElement                    // find, get or iteration on a bare string
    | UnknownConverterType            // fblistof given neither a dict nor a callable
    | NameError(name: string)         // a global name that is not defined where it is used
    | AttributeError(name: string)    // a converter the types module does not define
    | UnmodelledStringForm            // unicode() of a nested record (a dict's repr)
    | DuplicateKeyword(key: string)   // dict(..., **base) given a key twice

  // ---------------------------------------------------------------- decimal numbers

  predicate IsDigit(c: char) { '0' <= c <= '9' }

  predicate AllDigits(s: string) {
    forall k :: 0 <= k < |s| ==> IsDigit(s[k])
  }

  /** The base-10 value of a string of digits. */
  function DigitsValue(s: string): nat
    requires AllDigits(s)
  {
    if s == [] then 0
    else DigitsValue(s[..|s| - 1]) * 10 + (s[|s| - 1] as int - '0' as int)
  }

  function DigitChar(d: nat): char
    requires d < 10
  {
    ('0' as int + d) as char
  }

  /** The shortest decimal spelling of n. */
  function NatToDecimal(n: nat): (s: string)
    ensures s != [] && AllDigits(s)
  {
    if n < 10 then [DigitChar(n)] else NatToDecimal(n / 10) + [DigitChar(n % 10)]
  }

  /** `unicode(i)` for an int. */
  function IntToDecimal(i: int): string {
    if i < 0 then "-" + NatToDecimal(-i) else NatToDecimal(i)
  }

  /** The decimal spelling of n, left-padded with zeros to at least `width` characters
      (the `%02d`/`%04d` fields of isoformat). */
  function Pad(n: nat, width: nat): (s: string)
    ensures AllDigits(s)
    decreases width
  {
    var digits := NatToDecimal(n);
    if |digits| >= width then digits else "0" + Pad(n, width - 1)
  }

  function Pow10(k: nat): (r: nat)
    ensures r >= 1
  {
    if k == 0 then 1 else 10 * Pow10(k - 1)
  }

  lemma {:induction false} DigitsValueAppend(a: string, b: string)
    requires AllDigits(a) && AllDigits(b)
    ensures AllDigits(a + b)
    ensures DigitsValue(a + b) == DigitsValue(a) * Pow10(|b|) + DigitsValue(b)
    decreases |b|
  {
    if b == [] {
      assert a + b == a;
    } else {
      var b' := b[..|b| - 1];
      DigitsValueAppend(a, b');
      assert (a + b)[..|a + b| - 1] == a + b';
      assert (a + b)[|a + b| - 1] == b[|b| - 1];
      var va, vb', d, p := DigitsValue(a), DigitsValue(b'), b[|b| - 1] as int - '0' as int, Pow10(|b'|);
      assert DigitsValue(a + b) == (va * p + vb') * 10 + d;
      assert DigitsValue(b) == vb' * 10 + d;
      assert Pow10(|b|) == 10 * p;
      ShiftDigit(va, p, vb', d);
    }
  }

  lemma ShiftDigit(va: int, p: int, vb: int, d: int)
    ensures (va * p + vb) * 10 + d == va * (10 * p) + (vb * 10 + d)
  {
  }

  /** A string of k digits has a value below 10^k. */
  lemma {:induction false} DigitsValueBound(s: string)
    requires AllDigits(s)
    ensures DigitsValue(s) < Pow10(|s|)
    decreases |s|
  {
    if s != [] {
      DigitsValueBound(s[..|s| - 1]);
    }
  }

  /** A value and its last digit determine the value before that digit. */
  lemma LastDigitDetermines(va: int, x: int, vb: int, y: int)
    requires 0 <= x < 10 && 0 <= y < 10 && va * 10 + x == vb * 10 + y
    ensures x == y && va == vb
  {
  }

  /** Two digit strings of the same length and value are the same string. */
  lemma {:induction false} DigitsValueInjective(a: string, b: string)
    requires AllDigits(a) && AllDigits(b) && |a| == |b|
    requires DigitsValue(a) == DigitsValue(b)
    ensures a == b
    decreases |a|
  {
    if a != [] {
      var a', b' := a[..|a| - 1], b[..|b| - 1];
      var x, y := a[|a| - 1] as int - '0' as int, b[|b| - 1] as int - '0' as int;
      assert DigitsValue(a') * 10 + x == DigitsValue(b') * 10 + y;
      assert 0 <= x < 10 && 0 <= y < 10;
      LastDigitDetermines(DigitsValue(a'), x, DigitsValue(b'), y);
      DigitsValueInjective(a', b');
      assert a == a' + [a[|a| - 1]] && b == b' + [b[|b| - 1]];
    }
  }

  /** NatToDecimal spells n: reading the digits back gives n. */
  lemma {:induction false} NatToDecimalValue(n: nat)
    ensures DigitsValue(NatToDecimal(n)) == n
  {
    if n >= 10 {
      NatToDecimalValue(n / 10);
      var s := NatToDecimal(n);
      assert s[..|s| - 1] == NatToDecimal(n / 10);
    }
  }

  /** A number below 10^w (w >= 1) needs at most w digits. */
  lemma {:induction false} NatToDecimalLength(n: nat, w: nat)
    requires 1 <= w && n < Pow10(w)
    ensures |NatToDecimal(n)| <= w
  {
    if n >= 10 {
      assert w >= 2;
      assert n / 10 < Pow10(w - 1);
      NatToDecimalLength(n / 10, w - 1);
    }
  }

  lemma {:induction false} ZeroPrefixValue(t: string)
    requires AllDigits(t)
    ensures AllDigits("0" + t) && DigitsValue("0" + t) == DigitsValue(t)
  {
    DigitsValueAppend("0", t);
    assert DigitsValue("0") == 0 by { assert "0"[..0] == ""; }
  }

  /** Zero padding keeps the value and widens the spelling to at least `width`. */
  lemma {:induction false} PadValue(n: nat, width: nat)
    ensures DigitsValue(Pad(n, width)) == n
    ensures |Pad(n, width)| == if |NatToDecimal(n)| >= width then |NatToDecimal(n)| else width
    decreases width
  {
    NatToDecimalValue(n);
    if |NatToDecimal(n)| < width {
      PadValue(n, width - 1);
      ZeroPrefixValue(Pad(n, width - 1));
    }
  }

  /** A number below 10^width is padded to exactly `width` digits. */
  lemma {:induction false} PadWidth(n: nat, width: nat)
    requires 1 <= width && n < Pow10(width)
    ensures |Pad(n, width)| == width && DigitsValue(Pad(n, width)) == n
  {
    NatToDecimalLength(n, width);
    PadValue(n, width);
  }

  /** Padding a digit string's value back to its width gives the string itself. */
  lemma {:induction false} PadOfDigits(t: string)
    requires AllDigits(t) && |t| >= 1
    ensures Pad(DigitsValue(t), |t|) == t
  {
    DigitsValueBound(t);
    PadWidth(DigitsValue(t), |t|);
    DigitsValueInjective(Pad(DigitsValue(t), |t|), t);
  }

  /** A character that `int()` of a unicode string reads as whitespace: Python 2.7's
      `Py_UNICODE_ISSPACE`, which `PyUnicode_EncodeDecimal` turns into a space. */
  predicate IntSpace(c: char) {
    || Util.IsSpace(c)
    || 0x1c <= c as int <= 0x1f
    || c as int == 0x85 || c as int == 0xa0 || c as int == 0x1680 || c as int == 0x180e
    || 0x2000 <= c as int <= 0x200a
    || c as int == 0x2028 || c as int == 0x2029 || c as int == 0x202f
    || c as int == 0x205f || c as int == 0x3000
  }

  /** The whitespace `int()` skips at both ends of its argument. */
  function Strip(s: string): (r: string)
    ensures |r| <= |s|
    ensures r != [] ==> !IntSpace(r[0]) && !IntSpace(r[|r| - 1])
  {
    if s != [] && IntSpace(s[0]) then Strip(s[1..])
    else if s != [] && IntSpace(s[|s| - 1]) then Strip(s[..|s| - 1])
    else s
  }

  /** The whitespace `PyOS_strtoul` skips after the sign. */
  function SkipSpace(s: string): (r: string)
    ensures |r| <= |s|
    ensures r != [] ==> !IntSpace(r[0])
  {
    if s != [] && IntSpace(s[0]) then SkipSpace(s[1..]) else s
  }

  /** A base-10 integer literal: an optional sign, whitespace after a sign, then at
      least one digit. */
  predicate IntLiteral(u: string) {
    || (u != [] && AllDigits(u))
    || (|u| >= 1 && (u[0] == '-' || u[0] == '+') && SkipSpace(u[1..]) != [] && AllDigits(SkipSpace(u[1..])))
  }

  /** `int(t, 10)`: optional surrounding whitespace, an optional sign, optional whitespace
      after the sign, then at least one decimal digit. */
  function ParseDecimal(t: string): (r: Result<int, Error>)
    ensures r.Ok? <==> IntLiteral(Strip(t))
    ensures r.Err? ==> r.error == ValueError(t)
    ensures r.Ok? && r.value < 0 ==> Strip(t)[0] == '-'
    ensures r.Ok? && Strip(t)[0] == '-' ==> r.value <= 0
  {
    var u := Strip(t);
    var negative := u != [] && u[0] == '-';
    var digits := if u != [] && (u[0] == '-' || u[0] == '+') then SkipSpace(u[1..]) else u;
    if digits != [] && AllDigits(digits) then
      Ok(if negative then 0 - DigitsValue(digits) else DigitsValue(digits) as int)
    else
      Err(ValueError(t))
  }

  /** `int(unicode(i), 10) == i`: the decimal spelling of an integer parses back to it. */
  lemma {:induction false} ParseDecimalOfDecimal(i: int)
    ensures ParseDecimal(IntToDecimal(i)) == Ok(i)
  {
    if i < 0 {
      NatToDecimalValue(-i);
      ParseSignedDigits(true, NatToDecimal(-i), IntToDecimal(i), i);
    } else {
      NatToDecimalValue(i);
      ParseSignedDigits(false, NatToDecimal(i), IntToDecimal(i), i);
    }
  }

  /** A digit string, with or without a leading minus, parses to its signed value. */
  lemma {:induction false} ParseSignedDigits(negative: bool, digits: string, t: string, v: int)
    requires digits != [] && AllDigits(digits)
    requires t == if negative then "-" + digits else digits
    requires v == if negative then 0 - DigitsValue(digits) else DigitsValue(digits)
    ensures ParseDecimal(t) == Ok(v)
  {
    assert !IntSpace(t[0]) && t[|t| - 1] == digits[|digits| - 1];
    StripUnpadded(t);
    if negative {
      assert t[1..] == digits;
      assert SkipSpace(digits) == digits;
    }
  }

  /** Whitespace between the sign and the digits is skipped: `int(u'- 12', 10) == -12`. */
  lemma {:induction false} ParseSignSpaceDigits(sign: char, gap: string, digits: string)
    requires sign == '-' || sign == '+'
    requires forall k :: 0 <= k < |gap| ==> IntSpace(gap[k])
    requires digits != [] && AllDigits(digits)
    ensures ParseDecimal([sign] + gap + digits)
              == Ok(if sign == '-' then -(DigitsValue(digits) as int) else DigitsValue(digits) as int)
  {
    var rest := gap + digits;
    var t := [sign] + rest;
    assert [sign] + gap + digits == t;
    assert !IntSpace(digits[0]);
    SkipSpaceGap(gap, digits);
    assert t[1..] == rest;
    assert t[|t| - 1] == digits[|digits| - 1];
    StripUnpadded(t);
  }

  lemma StripUnpadded(t: string)
    requires t != [] && !IntSpace(t[0]) && !IntSpace(t[|t| - 1])
    ensures Strip(t) == t
  {
  }

  lemma {:induction false} SkipSpaceGap(gap: string, rest: string)
    requires forall k :: 0 <= k < |gap| ==> IntSpace(gap[k])
    requires rest != [] && !IntSpace(rest[0])
    ensures SkipSpace(gap + rest) == rest
    decreases |gap|
  {
    if gap == [] {
      assert gap + rest == rest;
    } else {
      assert (gap + rest)[1..] == gap[1..] + rest;
      SkipSpaceGap(gap[1..], rest);
    }
  }

  /** `int(u'- 12', 10) == -12`: the sign may stand apart from its digits. */
  lemma MinusSpaceExample()
    ensures ParseDecimal("- 12") == Ok(-12)
  {
    assert DigitsValue("12") == 12 by { assert "12"[..1] == "1"; assert "1"[..0] == ""; }
    ParseSignSpaceDigits('-', " ", "12");
    assert ['-'] + " " + "12" == "- 12";
  }

  /** `int(u'+ 7', 10) == 7`. */
  lemma PlusSpaceExample()
    ensures ParseDecimal("+ 7") == Ok(7)
  {
    assert DigitsValue("7") == 7 by { assert "7"[..0] == ""; }
    ParseSignSpaceDigits('+', " ", "7");
    assert ['+'] + " " + "7" == "+ 7";
  }

  /** `int(u'\xa012', 10) == 12`: a no-break space is whitespace to `int()` of unicode. */
  lemma UnicodeSpaceExample()
    ensures ParseDecimal("\U{a0}12") == Ok(12)
  {
    assert DigitsValue("12") == 12 by { assert "12"[..1] == "1"; assert "1"[..0] == ""; }
    assert Strip("\U{a0}12") == Strip("12");
    StripUnpadded("12");
  }

  /** Space inside the digits, a doubled sign and a bare sign are ValueErrors. */
  lemma MalformedIntExamples()
    ensures ParseDecimal("1 2").Err? && ParseDecimal("--1").Err? && ParseDecimal("-").Err?
  {
    StripUnpadded("1 2");
    StripUnpadded("--1");
    StripUnpadded("-");
    assert !AllDigits("1 2") by { assert "1 2"[1] == ' '; }
    assert SkipSpace("-1") == "-1";
    assert !AllDigits("-1") by { assert "-1"[0] == '-'; }
  }

  // ---------------------------------------------------------------- dates

  /** The format string fbisofmt = "%Y-%m-%dT%H:%M:%SZ". */
  predicate FbIsoShape(s: string) {
    && |s| == 20
    && s[4] == '-' && s[7] == '-' && s[10] == 'T' && s[13] == ':' && s[16] == ':' && s[19] == 'Z'
    && AllDigits(s[0..4]) && AllDigits(s[5..7]) && AllDigits(s[8..10])
    && AllDigits(s[11..13]) && AllDigits(s[14..16]) && AllDigits(s[17..19])
  }

  /** `datetime.strptime(s, fbisofmt)`, with every field at its full width. */
  function ParseFbDateTime(s: string): (r: Result<Timestamp, Error>)
    ensures r.Ok? ==> FbIsoShape(s) && r.value.microsecond == 0
    ensures r.Ok? ==> r.value.year == DigitsValue(s[0..4]) && r.value.second == DigitsValue(s[17..19])
    ensures r.Err? ==> r.error == ValueError(s)
  {
    if FbIsoShape(s) then
      var d := DateTime(DigitsValue(s[0..4]), DigitsValue(s[5..7]), DigitsValue(s[8..10]),
                        DigitsValue(s[11..13]), DigitsValue(s[14..16]), DigitsValue(s[17..19]), 0);
      if ValidDateTime(d) then Ok(d) else Err(ValueError(s))
    else
      Err(ValueError(s))
  }

  /** The `YYYY-MM-DDTHH:MM:SS` part of isoformat. */
  function DatePart(d: Timestamp): string {
    Pad(d.year, 4) + "-" + Pad(d.month, 2) + "-" + Pad(d.day, 2) + "T"
    + Pad(d.hour, 2) + ":" + Pad(d.minute, 2) + ":" + Pad(d.second, 2)
  }

  /** fbisofmt's text for the six fields' spellings. */
  function IsoLayout(y: string, mo: string, d: string, h: string, mi: string, sec: string): string {
    y + "-" + mo + "-" + d + "T" + h + ":" + mi + ":" + sec + "Z"
  }

  /** Where the six fields sit in fbisofmt's text. */
  lemma {:induction false} IsoLayoutFields(y: string, mo: string, d: string, h: string, mi: string, sec: string)
    requires |y| == 4 && |mo| == 2 && |d| == 2 && |h| == 2 && |mi| == 2 && |sec| == 2
    ensures var t := IsoLayout(y, mo, d, h, mi, sec);
            && |t| == 20
            && t[4] == '-' && t[7] == '-' && t[10] == 'T' && t[13] == ':' && t[16] == ':' && t[19] == 'Z'
            && t[0..4] == y && t[5..7] == mo && t[8..10] == d
            && t[11..13] == h && t[14..16] == mi && t[17..19] == sec
  {
    var t := IsoLayout(y, mo, d, h, mi, sec);
    assert t == y + ("-" + (mo + ("-" + (d + ("T" + (h + (":" + (mi + (":" + (sec + "Z")))))))))); 
  }

  /** A text of fbisofmt's shape is the layout of its own six fields. */
  lemma {:induction false} IsoLayoutOfShape(t: string)
    requires FbIsoShape(t)
    ensures t == IsoLayout(t[0..4], t[5..7], t[8..10], t[11..13], t[14..16], t[17..19])
  {
    var l := IsoLayout(t[0..4], t[5..7], t[8..10], t[11..13], t[14..16], t[17..19]);
    IsoLayoutFields(t[0..4], t[5..7], t[8..10], t[11..13], t[14..16], t[17..19]);
    forall k | 0 <= k < 20 ensures l[k] == t[k] {
      if k < 4 { assert l[0..4][k] == t[0..4][k]; }
      else if 4 < k < 7 { assert l[5..7][k - 5] == t[5..7][k - 5]; }
      else if 7 < k < 10 { assert l[8..10][k - 8] == t[8..10][k - 8]; }
      else if 10 < k < 13 { assert l[11..13][k - 11] == t[11..13][k - 11]; }
      else if 13 < k < 16 { assert l[14..16][k - 14] == t[14..16][k - 14]; }
      else if 16 < k < 19 { assert l[17..19][k - 17] == t[17..19][k - 17]; }
    }
  }

  lemma {:induction false} Pow10Small()
    ensures Pow10(2) == 100 && Pow10(4) == 10000 && Pow10(6) == 1000000
  {
    assert Pow10(1) == 10;
    assert Pow10(3) == 1000;
    assert Pow10(5) == 100000;
  }

  /** A timestamp's fields at fbisofmt's widths: four digits of year, two of the rest. */
  lemma {:induction false} DatePartLayout(d: Timestamp)
    ensures DatePart(d) + "Z"
            == IsoLayout(Pad(d.year, 4), Pad(d.month, 2), Pad(d.day, 2), Pad(d.hour, 2), Pad(d.minute, 2), Pad(d.second, 2))
    ensures |Pad(d.year, 4)| == 4 && DigitsValue(Pad(d.year, 4)) == d.year
    ensures |Pad(d.month, 2)| == 2 && DigitsValue(Pad(d.month, 2)) == d.month
    ensures |Pad(d.day, 2)| == 2 && DigitsValue(Pad(d.day, 2)) == d.day
    ensures |Pad(d.hour, 2)| == 2 && DigitsValue(Pad(d.hour, 2)) == d.hour
    ensures |Pad(d.minute, 2)| == 2 && DigitsValue(Pad(d.minute, 2)) == d.minute
    ensures |Pad(d.second, 2)| == 2 && DigitsValue(Pad(d.second, 2)) == d.second
  {
    Pow10Small();
    PadWidth(d.year, 4);
    PadWidth(d.month, 2);
    PadWidth(d.day, 2);
    PadWidth(d.hour, 2);
    PadWidth(d.minute, 2);
    PadWidth(d.second, 2);
  }

  /** Writing a timestamp in fbisofmt and parsing it with strptime gives the timestamp
      back, less its microseconds (the format has none). */
  lemma {:induction false} ParseFbDateTimeOfLayout(d: Timestamp)
    ensures ParseFbDateTime(DatePart(d) + "Z") == Ok(d.(microsecond := 0))
  {
    DatePartLayout(d);
    IsoLayoutFields(Pad(d.year, 4), Pad(d.month, 2), Pad(d.day, 2), Pad(d.hour, 2), Pad(d.minute, 2), Pad(d.second, 2));
  }

  /** Every text strptime accepts is the fbisofmt spelling of the timestamp it yields. */
  lemma {:induction false} LayoutOfParseFbDateTime(t: string)
    requires ParseFbDateTime(t).Ok?
    ensures DatePart(ParseFbDateTime(t).value) + "Z" == t
  {
    var d := ParseFbDateTime(t).value;
    IsoLayoutOfShape(t);
    PadOfDigits(t[0..4]);
    PadOfDigits(t[5..7]);
    PadOfDigits(t[8..10]);
    PadOfDigits(t[11..13]);
    PadOfDigits(t[14..16]);
    PadOfDigits(t[17..19]);
    DatePartLayout(d);
  }

  /** `d.isoformat()`: the date and time, then `.ffffff` when there are microseconds. */
  function IsoFormat(d: Timestamp): string {
    DatePart(d) + (if d.microsecond != 0 then "." + Pad(d.microsecond, 6) else "")
  }

  // ---------------------------------------------------------------- scalar converters

  /** fbint: 0 for empty text (an unset id), else the base-10 value of the text. */
  function ConvertInt(n: Node): (r: Result<Value, Error>)
    ensures Text(n) == "" ==> r == Ok(Int(0))
    ensures Text(n) != "" ==> r == (match ParseDecimal(Text(n))
                                   case Ok(i) => Ok(Int(i))
                                   case Err(e) => Err(e))
  {
    var t := Text(n);
    if t == "" then Ok(Int(0))
    else
      var i :- ParseDecimal(t);
      Ok(Int(i))
  }

  /** fbbool */
  function ConvertBool(n: Node): (r: Value)
    ensures r.Bool? && (r.b <==> Text(n) == "true")
  {
    Bool(Text(n) == "true")
  }

  /** fbstring (the UTF-8 encoding is the identity on Dafny strings) */
  function ConvertString(n: Node): (r: Value)
    ensures r.Str? && r.s == Text(n)
  {
    Str(Text(n))
  }

  /** fbdatetime: the empty-string sentinel for empty text, else the parsed date. */
  function ConvertDateTime(n: Node): (r: Result<Value, Error>)
    ensures Text(n) == "" <==> r == Ok(EmptyDate)
    ensures r.Ok? && Text(n) != "" ==> r.value.Date? && FbIsoShape(Text(n)) && r.value.dt.microsecond == 0
  {
    var t := Text(n);
    if t == "" then Ok(EmptyDate)
    else
      var d :- ParseFbDateTime(t);
      Ok(Date(d))
  }

  // ---------------------------------------------------------------- descriptors

  /** One condition of fbconditional: the sibling field it reads and the check it applies
      (the check's result is taken for its truth value by `all`). */
  datatype Condition = Condition(name: string, check: Value -> bool)

  /** What a converter callable does when it is called. */
  datatype Conv =
    | IntConv                                   // fbint
    | BoolConv                                  // fbbool
    | StringConv                                // fbstring
    | DateTimeConv                              // fbdatetime
    | ListOf(elem: Descriptor)                  // fblistof(callable): partial(_listof, conv)
    | ListOfSchema(schema: Schema)              // fblistof(dict): partial(_extractall, dict)
    | ListOfSchemaAsWritten(schema: Schema)     // the same, as written: _extractall's global is unbound
    | CommaListOf(elem: Descriptor)             // fbcommalistof
    | Conditional(inner: Descriptor, conditions: seq<Condition>)  // fbconditional
    | FirstElem(inner: Descriptor)              // _firstelem, as written: one argument
    | FirstElemForwarding(inner: Descriptor)    // _firstelem passing every argument through
    | AttrOf(elem: Descriptor)                  // fbattr's getattr partial
    | SelfText                                  // _fbselfstr
    | Undefined(name: string)                   // a name the types module does not define

  /** A converter callable together with the metadata attributes the engine probes with
      getattr. Absent attributes take the defaults getattr is given: no colname, resname
      or setname, attrib False, settable True, no setconvert, takes_map, takes_data and
      ignore False. */
  datatype Descriptor = Descriptor(
    conv: Conv,
    colname: Option<string>,
    resname: Option<string>,
    attrib: bool,
    settable: bool,
    setname: Option<string>,
    setconvert: Option<Value -> string>,
    takesMap: bool,
    takesData: bool,
    ignore: bool)

  datatype Field = Field(name: string, desc: Descriptor)

  /** A typemap: a dict from field name to converter, its fields listed in the dict's
      iteration order. */
  datatype Schema = Schema(fields: seq<Field>)

  function Names(s: Schema): set<string> {
    set i | 0 <= i < |s.fields| :: s.fields[i].name
  }

  predicate DistinctNames(fs: seq<Field>) {
    forall i, j :: 0 <= i < j < |fs| ==> fs[i].name != fs[j].name
  }

  /** No field name occurs twice, as in any dict. */
  predicate WellFormed(s: Schema) {
    DistinctNames(s.fields)
  }

  /** `typemap.get(name)` */
  function Lookup(fields: seq<Field>, name: string): (r: Option<Descriptor>)
    ensures r.None? <==> forall i :: 0 <= i < |fields| ==> fields[i].name != name
    ensures r.Some? ==> exists i :: 0 <= i < |fields| && fields[i] == Field(name, r.value)
  {
    if fields == [] then None
    else if fields[0].name == name then Some(fields[0].desc)
    else
      var r := Lookup(fields[1..], name);
      assert r.Some? ==> exists i :: 0 <= i < |fields[1..]| && fields[1..][i] == Field(name, r.value);
      r
  }

  /** A bare Python function: a converter with no metadata attributes. */
  function Bare(c: Conv): Descriptor {
    Descriptor(c, None, None, false, true, None, None, false, false, false)
  }

  const FbInt: Descriptor := Bare(IntConv)
  const FbBool: Descriptor := Bare(BoolConv)
  const FbString: Descriptor := Bare(StringConv)
  const FbDateTime: Descriptor := Bare(DateTimeConv)

  /** An attribute that is set only when the keyword argument is truthy. */
  function IfGiven(s: Option<string>): (r: Option<string>)
    ensures r.Some? <==> s.Some? && s.value != ""
    ensures r.Some? ==> r == s
  {
    if s.Some? && s.value != "" then s else None
  }

  /** What may be passed to fblistof. */
  datatype ConverterArg = DictArg(schema: Schema) | CallableArg(callable: Descriptor) | OtherArg

  function FbListOfSchema(s: Schema): Descriptor {
    Bare(ListOfSchema(s)).(takesMap := true)
  }

  function FbListOfCallable(d: Descriptor): Descriptor {
    Bare(ListOf(d))
  }

  /** fblistof: a dict gives a list-of-records converter that takes the name map, a
      callable a converter mapped over the children, anything else a TypeError. */
  function FbListOf(arg: ConverterArg): (r: Result<Descriptor, Error>)
    ensures r.Err? <==> arg.OtherArg?
    ensures r.Err? ==> r.error == UnknownConverterType
    ensures arg.DictArg? ==> r.value.conv == ListOfSchema(arg.schema) && r.value.takesMap
    ensures arg.CallableArg? ==> r.value.conv == ListOf(arg.callable) && !r.value.takesMap
  {
    match arg
    case DictArg(s) => Ok(FbListOfSchema(s))
    case CallableArg(d) => Ok(FbListOfCallable(d))
    case OtherArg => Err(UnknownConverterType)
  }

  /** fblistof as written: for a dict, `_extractall` calls `extract_all`, a name the
      types module neither defines nor imports. */
  function FbListOfAsWritten(arg: ConverterArg): (r: Result<Descriptor, Error>)
    ensures r.Err? <==> arg.OtherArg?
    ensures arg.DictArg? ==> r.value.conv == ListOfSchemaAsWritten(arg.schema) && r.value.takesMap
    ensures !arg.DictArg? ==> r == FbListOf(arg)
  {
    match arg
    case DictArg(s) => Ok(Bare(ListOfSchemaAsWritten(s)).(takesMap := true))
    case _ => FbListOf(arg)
  }

  /** fbcommalistof */
  function FbCommaListOf(d: Descriptor): (r: Descriptor)
    ensures r.conv == CommaListOf(d) && !r.takesMap && !r.takesData && !r.attrib && r.settable
  {
    Bare(CommaListOf(d))
  }

  /** fbcol: a new callable doing what d does, keeping d's takes_map and takes_data
      and nothing else of d's metadata, with the metadata given here. */
  function FbCol(d: Descriptor, colname: Option<string>, resname: Option<string>,
                 attrib: bool, settable: bool, setname: Option<string>,
                 setter: Option<Value -> string>): (r: Descriptor)
    ensures r.conv == d.conv && r.takesMap == d.takesMap && r.takesData == d.takesData
    ensures r.attrib == attrib && r.settable == settable && !r.ignore
    ensures r.colname == IfGiven(colname) && r.resname == IfGiven(resname)
    ensures r.setname == IfGiven(setname) && r.setconvert == setter
  {
    Descriptor(d.conv, IfGiven(colname), IfGiven(resname), attrib, settable,
               IfGiven(setname), setter, d.takesMap, d.takesData, false)
  }

  /** fbconditional */
  function FbConditional(d: Descriptor, conditions: seq<Condition>): (r: Descriptor)
    ensures r.conv == Conditional(d, conditions) && r.takesData && !r.takesMap && !r.attrib && !r.ignore
  {
    Bare(Conditional(d, conditions)).(takesData := true)
  }

  /** fbminievents */
  function FbMiniEvents(s: Schema): (r: Descriptor)
    ensures !r.settable && r.colname == Some("minievents") && r.resname == Some("minievents")
    ensures r.conv == ListOfSchema(s) && r.takesMap
  {
    FbCol(FbListOfSchema(s), Some("minievents"), Some("minievents"), false, false, None, None)
  }

  /** fbevents */
  function FbEvents(s: Schema): (r: Descriptor)
    ensures !r.settable && r.colname == Some("events") && r.resname == Some("events")
    ensures r.conv == ListOfSchema(s) && r.takesMap
  {
    FbCol(FbListOfSchema(s), Some("events"), Some("events"), false, false, None, None)
  }

  /** _firstelem as written: a one-argument partial, with none of conv's metadata. */
  function FirstElemAsWritten(d: Descriptor): Descriptor {
    Bare(FirstElem(d))
  }

  /** _firstelem as evidently intended: pass every argument through to conv and keep
      its takes_map and takes_data, so that it can wrap a list-of-schema converter. */
  function FirstElemOf(d: Descriptor): Descriptor {
    Bare(FirstElemForwarding(d)).(takesMap := d.takesMap, takesData := d.takesData)
  }

  /** fblatestevent as written: reads wire name `events`, requests column `latestEvent`. */
  function FbLatestEventAsWritten(s: Schema): (r: Descriptor)
    ensures !r.settable && r.colname == Some("latestEvent") && r.resname == Some("events")
    ensures !r.takesMap && !r.takesData && !r.attrib
  {
    FbCol(FirstElemAsWritten(FbListOfSchema(s)), Some("latestEvent"), Some("events"),
          false, false, None, None)
  }

  /** fblatestevent built on the corrected _firstelem. */
  function FbLatestEvent(s: Schema): (r: Descriptor)
    ensures !r.settable && r.colname == Some("latestEvent") && r.resname == Some("events")
    ensures r.conv == FirstElemForwarding(FbListOfSchema(s)) && r.takesMap && !r.attrib
  {
    FbCol(FirstElemOf(FbListOfSchema(s)), Some("latestEvent"), Some("events"),
          false, false, None, None)
  }

  /** fbattr: an attribute reader, never written back. */
  function FbAttr(d: Descriptor): (r: Descriptor)
    ensures r.attrib && !r.settable && r.conv == AttrOf(d)
  {
    FbCol(Bare(AttrOf(d)), None, None, true, false, None, None)
  }

  /** fbself: the element's own text, read through the attribute path, never written back. */
  const FbSelf: Descriptor := FbCol(Bare(SelfText), None, None, true, false, None, None)
}
