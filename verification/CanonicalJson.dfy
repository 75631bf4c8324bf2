/**
 The canonical JSON text behind a report manifest's checksum.

 Strings are sequences of UTF-16 code units, as in ECMAScript. A number is held as the
 text Number::toString gives it. `Parse` reads JSON text without white space; strings
 follow section 7 of RFC 8259.
 */
module CanonicalJson {
  import opened Common

  type Unit = u: int | 0 <= u < 0x10000
  type Text = seq<Unit>

  const QUOTE: Unit := 0x22
  const COMMA: Unit := 0x2C
  const COLON: Unit := 0x3A
  const LBRACKET: Unit := 0x5B
  const BACKSLASH: Unit := 0x5C
  const RBRACKET: Unit := 0x5D
  const LBRACE: Unit := 0x7B
  const RBRACE: Unit := 0x7D
  const TRUE: Text := [0x74, 0x72, 0x75, 0x65]
  const FALSE: Text := [0x66, 0x61, 0x6C, 0x73, 0x65]
  const NULL: Text := [0x6E, 0x75, 0x6C, 0x6C]
  const UNDEFINED: Text := [0x75, 0x6E, 0x64, 0x65, 0x66, 0x69, 0x6E, 0x65, 0x64]

  function Ascii(s: string): Text
    requires forall i :: 0 <= i < |s| ==> s[i] < 128 as char
  {
    seq(|s|, i requires 0 <= i < |s| => s[i] as int)
  }

  /** The characters JSON text is made of, written out. */
  lemma Punctuation()
    ensures [QUOTE, COMMA, COLON, LBRACKET, BACKSLASH, RBRACKET, LBRACE, RBRACE] == Ascii("\",:[\\]{}")
    ensures TRUE == Ascii("true") && FALSE == Ascii("false") && NULL == Ascii("null")
    ensures UNDEFINED == Ascii("undefined")
  {
  }

  datatype Entry<T> = Entry(key: Text, value: T)

  /** A JavaScript value; the members of an object stand in insertion order. */
  datatype Json =
    | Null
    | Bool(b: bool)
    | Number(text: Text)
    | String(text: Text)
    | Array(items: seq<Json>)
    | Object(members: seq<Entry<Json>>)
    | Undefined

  /** What a value means: an object is a map, so the order of its members is nothing. */
  datatype Value =
    | VNull
    | VBool(b: bool)
    | VNumber(text: Text)
    | VString(text: Text)
    | VArray(items: seq<Value>)
    | VObject(members: map<Text, Value>)
    | VUndefined

  function MapOf<T>(es: seq<Entry<T>>): map<Text, T> {
    if es == [] then map[] else map[es[0].key := es[0].value] + MapOf(es[1..])
  }

  predicate Distinct<T>(es: seq<Entry<T>>) {
    forall i, j :: 0 <= i < j < |es| ==> es[i].key != es[j].key
  }

  function Meaning(v: Json): Value {
    match v
    case Null => VNull
    case Bool(b) => VBool(b)
    case Number(t) => VNumber(t)
    case String(t) => VString(t)
    case Array(items) => VArray(MeaningItems(items))
    case Object(members) => VObject(MapOf(MeaningMembers(members)))
    case Undefined => VUndefined
  }

  function MeaningItems(items: seq<Json>): (r: seq<Value>)
    ensures |r| == |items|
    ensures forall i :: 0 <= i < |items| ==> r[i] == Meaning(items[i])
  {
    seq(|items|, i requires 0 <= i < |items| => Meaning(items[i]))
  }

  function MeaningMembers(members: seq<Entry<Json>>): (r: seq<Entry<Value>>)
    ensures |r| == |members|
    ensures forall i :: 0 <= i < |members| ==> r[i] == Entry(members[i].key, Meaning(members[i].value))
  {
    seq(|members|, i requires 0 <= i < |members| => Entry(members[i].key, Meaning(members[i].value)))
  }

  /** The JSON values: finite numbers, no undefined, one member a key. */
  predicate WellFormed(v: Json) {
    match v
    case Number(t) => t != [] && forall i :: 0 <= i < |t| ==> IsNumberUnit(t[i])
    case Array(items) => forall i :: 0 <= i < |items| ==> WellFormed(items[i])
    case Object(members) =>
      Distinct(members) && forall i :: 0 <= i < |members| ==> WellFormed(members[i].value)
    case Undefined => false
    case _ => true
  }

  predicate IsNumberUnit(u: Unit) {
    0x30 <= u <= 0x39 || u == 0x2B || u == 0x2D || u == 0x2E || u == 0x45 || u == 0x65
  }

  /** A number's text is made of digits, signs, a point and an exponent mark. */
  lemma NumberUnits(u: Unit)
    ensures IsNumberUnit(u) <==> u in Ascii("0123456789+-.Ee")
  {
    var t := Ascii("0123456789+-.Ee");
    assert t == [0x30, 0x31, 0x32, 0x33, 0x34, 0x35, 0x36, 0x37, 0x38, 0x39, 0x2B, 0x2D, 0x2E, 0x45, 0x65];
  }

  // ----- Quoting, as JSON.stringify does it -----

  predicate IsHigh(u: Unit) { 0xD800 <= u < 0xDC00 }

  predicate IsLow(u: Unit) { 0xDC00 <= u < 0xE000 }

  function HexDigit(n: int): Unit
    requires 0 <= n < 16
  {
    if n < 10 then 0x30 + n else 0x57 + n
  }

  function HexEscape(u: Unit): Text {
    [0x75, HexDigit(u / 4096), HexDigit(u / 256 % 16), HexDigit(u / 16 % 16), HexDigit(u % 16)]
  }

  function EscapeUnit(u: Unit): Text {
    if u == QUOTE || u == BACKSLASH then [BACKSLASH, u]
    else if u == 0x08 then [BACKSLASH, 0x62]
    else if u == 0x09 then [BACKSLASH, 0x74]
    else if u == 0x0A then [BACKSLASH, 0x6E]
    else if u == 0x0C then [BACKSLASH, 0x66]
    else if u == 0x0D then [BACKSLASH, 0x72]
    else if u < 0x20 || IsHigh(u) || IsLow(u) then [BACKSLASH] + HexEscape(u)
    else [u]
  }

  /** A surrogate pair passes as it is; a lone surrogate is escaped. */
  function Escape(t: Text): Text {
    if t == [] then []
    else if |t| >= 2 && IsHigh(t[0]) && IsLow(t[1]) then [t[0], t[1]] + Escape(t[2..])
    else EscapeUnit(t[0]) + Escape(t[1..])
  }

  function Quote(t: Text): Text {
    [QUOTE] + Escape(t) + [QUOTE]
  }

  /** JSON.stringify escapes as briefly as section 7 of RFC 8259 has a letter for, otherwise in
      four lower-case hexadecimal digits, and only what it has to. */
  lemma EscapesAs(u: Unit)
    ensures u == 0x22 ==> EscapeUnit(u) == Ascii("\\\"")
    ensures u == 0x5C ==> EscapeUnit(u) == Ascii("\\\\")
    ensures u == 0x08 ==> EscapeUnit(u) == Ascii("\\b")
    ensures u == 0x09 ==> EscapeUnit(u) == Ascii("\\t")
    ensures u == 0x0A ==> EscapeUnit(u) == Ascii("\\n")
    ensures u == 0x0C ==> EscapeUnit(u) == Ascii("\\f")
    ensures u == 0x0D ==> EscapeUnit(u) == Ascii("\\r")
    ensures u < 0x08 || u == 0x0B || 0x0E <= u < 0x20 || 0xD800 <= u < 0xE000 ==>
              && |EscapeUnit(u)| == 6 && EscapeUnit(u)[..2] == Ascii("\\u")
              && forall i :: 2 <= i < 6 ==> IsLowerHex(EscapeUnit(u)[i])
    ensures u >= 0x20 && u != 0x22 && u != 0x5C && !(0xD800 <= u < 0xE000) ==> EscapeUnit(u) == [u]
  {
    assert |Ascii("\\u")| == 2;
  }

  predicate IsLowerHex(u: Unit) {
    '0' as int <= u <= '9' as int || 'a' as int <= u <= 'f' as int
  }

  /** The unit at `i` is neither a control character nor one of the two that JSON reserves,
      and no surrogate without its partner. */
  predicate Passes(t: Text, i: nat)
    requires i < |t|
  {
    && t[i] >= 0x20 && t[i] != 0x22 && t[i] != 0x5C
    && (0xD800 <= t[i] < 0xDC00 ==> i + 1 < |t| && 0xDC00 <= t[i + 1] < 0xE000)
    && (0xDC00 <= t[i] < 0xE000 ==> i > 0 && 0xD800 <= t[i - 1] < 0xDC00)
  }

  ghost predicate AllPass(t: Text) {
    forall i :: 0 <= i < |t| ==> Passes(t, i)
  }

  lemma {:induction false} EscapeGrows(t: Text)
    ensures |Escape(t)| >= |t|
  {
    if |t| >= 2 && IsHigh(t[0]) && IsLow(t[1]) {
      EscapeGrows(t[2..]);
    } else if t != [] {
      EscapeGrows(t[1..]);
    }
  }

  lemma PassingSplits(t: Text, n: nat)
    requires 0 < n <= |t| && !IsHigh(t[n - 1]) && forall i :: 0 <= i < n ==> Passes(t, i)
    ensures AllPass(t) <==> AllPass(t[n..])
  {
    if AllPass(t) {
      forall i | 0 <= i < |t[n..]| ensures Passes(t[n..], i) {
        assert Passes(t, n + i);
      }
    }
    if AllPass(t[n..]) {
      forall i | n <= i < |t| ensures Passes(t, i) {
        assert Passes(t[n..], i - n);
      }
    }
  }

  /** A string is quoted as it stands exactly when nothing in it calls for an escape. */
  lemma {:induction false} EscapeKeepsIff(t: Text)
    ensures Escape(t) == t <==> AllPass(t)
  {
    if |t| >= 2 && IsHigh(t[0]) && IsLow(t[1]) {
      EscapeKeepsIff(t[2..]);
      PassingSplits(t, 2);
      assert Escape(t)[2..] == Escape(t[2..]) && t == [t[0], t[1]] + t[2..];
    } else if t != [] {
      EscapeGrows(t[1..]);
      if |EscapeUnit(t[0])| == 1 {
        EscapeKeepsIff(t[1..]);
        PassingSplits(t, 1);
        assert Escape(t)[1..] == Escape(t[1..]) && t == [t[0]] + t[1..];
      } else {
        assert !Passes(t, 0);
      }
    }
  }

  // ----- The printer -----

  /** Array.prototype.sort on keys compares code units. */
  predicate Below(a: Text, b: Text) {
    b != [] && (a == [] || a[0] < b[0] || (a[0] == b[0] && Below(a[1..], b[1..])))
  }

  function Insert<T>(e: Entry<T>, es: seq<Entry<T>>): seq<Entry<T>> {
    if es == [] || Below(e.key, es[0].key) then [e] + es else [es[0]] + Insert(e, es[1..])
  }

  function Sort<T>(es: seq<Entry<T>>): seq<Entry<T>> {
    if es == [] then [] else Insert(es[0], Sort(es[1..]))
  }

  function Join(ts: seq<Text>): Text {
    if ts == [] then [] else if |ts| == 1 then ts[0] else ts[0] + [COMMA] + Join(ts[1..])
  }

  function Pairs(es: seq<Entry<Text>>): seq<Text> {
    seq(|es|, i requires 0 <= i < |es| => Quote(es[i].key) + [COLON] + es[i].value)
  }

  function Canonical(v: Json): Text {
    match v
    case Null => NULL
    case Bool(b) => if b then TRUE else FALSE
    case Number(t) => t
    case String(t) => Quote(t)
    case Array(items) => [LBRACKET] + Join(CanonicalItems(items)) + [RBRACKET]
    case Object(members) => [LBRACE] + Join(Pairs(Sort(CanonicalMembers(members)))) + [RBRACE]
    case Undefined => UNDEFINED
  }

  /** Array.prototype.join turns an undefined item into no text. */
  function CanonicalItems(items: seq<Json>): (r: seq<Text>)
    ensures |r| == |items|
    ensures forall i :: 0 <= i < |items| ==> r[i] == if items[i].Undefined? then [] else Canonical(items[i])
  {
    seq(|items|, i requires 0 <= i < |items| => if items[i].Undefined? then [] else Canonical(items[i]))
  }

  function CanonicalMembers(members: seq<Entry<Json>>): (r: seq<Entry<Text>>)
    ensures |r| == |members|
    ensures forall i :: 0 <= i < |members| ==> r[i] == Entry(members[i].key, Canonical(members[i].value))
  {
    seq(|members|, i requires 0 <= i < |members| => Entry(members[i].key, Canonical(members[i].value)))
  }

  // ----- The parser -----

  datatype Read<+T> = Fail | Got(value: T, rest: Text)

  function HexValue(u: Unit): (r: Option<int>)
    ensures r.Some? ==> 0 <= r.value < 16
  {
    if 0x30 <= u <= 0x39 then Some(u - 0x30)
    else if 0x61 <= u <= 0x66 then Some(u - 0x57)
    else if 0x41 <= u <= 0x46 then Some(u - 0x37)
    else None
  }

  /** The unit after a backslash. */
  function ReadEscape(s: Text): (r: Read<Unit>)
    ensures r.Got? ==> |r.rest| < |s|
  {
    if s == [] then Fail
    else if s[0] == QUOTE || s[0] == BACKSLASH || s[0] == 0x2F then Got(s[0], s[1..])
    else if s[0] == 0x62 then Got(0x08, s[1..])
    else if s[0] == 0x66 then Got(0x0C, s[1..])
    else if s[0] == 0x6E then Got(0x0A, s[1..])
    else if s[0] == 0x72 then Got(0x0D, s[1..])
    else if s[0] == 0x74 then Got(0x09, s[1..])
    else if s[0] == 0x75 && |s| >= 5 then
      match (HexValue(s[1]), HexValue(s[2]), HexValue(s[3]), HexValue(s[4]))
      case (Some(a), Some(b), Some(c), Some(d)) => Got(a * 4096 + b * 256 + c * 16 + d, s[5..])
      case _ => Fail
    else Fail
  }

  /** The rest of a string after its opening quotation mark. */
  function ReadString(s: Text): (r: Read<Text>)
    ensures r.Got? ==> |r.rest| < |s|
    decreases |s|
  {
    if s == [] || s[0] < 0x20 then Fail
    else if s[0] == QUOTE then Got([], s[1..])
    else
      var head := if s[0] == BACKSLASH then ReadEscape(s[1..]) else Got(s[0], s[1..]);
      if head.Fail? then Fail
      else
        var tail := ReadString(head.rest);
        if tail.Fail? then Fail else Got([head.value] + tail.value, tail.rest)
  }

  function ReadNumber(s: Text): (r: Read<Text>)
    ensures r.Got? && r.value != [] ==> |r.rest| < |s|
  {
    if s == [] || !IsNumberUnit(s[0]) then Got([], s)
    else var tail := ReadNumber(s[1..]); Got([s[0]] + tail.value, tail.rest)
  }

  function Parse(s: Text): (r: Read<Value>)
    ensures r.Got? ==> |r.rest| < |s|
    decreases |s|, 0
  {
    if s == [] then Fail
    else if s[0] == QUOTE then
      var t := ReadString(s[1..]);
      if t.Fail? then Fail else Got(VString(t.value), t.rest)
    else if s[0] == LBRACKET then
      if |s| >= 2 && s[1] == RBRACKET then Got(VArray([]), s[2..])
      else
        var t := ParseItems(s[1..]);
        if t.Fail? then Fail else Got(VArray(t.value), t.rest)
    else if s[0] == LBRACE then
      if |s| >= 2 && s[1] == RBRACE then Got(VObject(map[]), s[2..])
      else
        var t := ParseMembers(s[1..]);
        if t.Fail? then Fail else Got(VObject(t.value), t.rest)
    else if NULL <= s then Got(VNull, s[4..])
    else if TRUE <= s then Got(VBool(true), s[4..])
    else if FALSE <= s then Got(VBool(false), s[5..])
    else
      var t := ReadNumber(s);
      if t.value == [] then Fail else Got(VNumber(t.value), t.rest)
  }

  /** One or more items and the closing bracket. */
  function ParseItems(s: Text): (r: Read<seq<Value>>)
    ensures r.Got? ==> |r.rest| < |s|
    decreases |s|, 1
  {
    var head := Parse(s);
    if head.Fail? || head.rest == [] then Fail
    else if head.rest[0] == RBRACKET then Got([head.value], head.rest[1..])
    else if head.rest[0] == COMMA then
      var tail := ParseItems(head.rest[1..]);
      if tail.Fail? then Fail else Got([head.value] + tail.value, tail.rest)
    else Fail
  }

  /** One or more members and the closing brace; of two equal keys the last counts. */
  function ParseMembers(s: Text): (r: Read<map<Text, Value>>)
    ensures r.Got? ==> |r.rest| < |s|
    decreases |s|, 1
  {
    if s == [] || s[0] != QUOTE then Fail
    else
      var key := ReadString(s[1..]);
      if key.Fail? || key.rest == [] || key.rest[0] != COLON then Fail
      else
        var head := Parse(key.rest[1..]);
        if head.Fail? || head.rest == [] then Fail
        else if head.rest[0] == RBRACE then Got(map[key.value := head.value], head.rest[1..])
        else if head.rest[0] == COMMA then
          var tail := ParseMembers(head.rest[1..]);
          if tail.Fail? then Fail else Got(map[key.value := head.value] + tail.value, tail.rest)
        else Fail
  }

  // ----- The parser undoes the printer -----

  /** What may follow a value inside a JSON text. */
  predicate Ends(rest: Text) {
    rest == [] || rest[0] == COMMA || rest[0] == RBRACKET || rest[0] == RBRACE
  }

  ghost predicate ParsesTo(t: Text, v: Value) {
    forall rest {:trigger Parse(t + rest)} :: Ends(rest) ==> Parse(t + rest) == Got(v, rest)
  }

  lemma HexValueUndoes(n: int)
    requires 0 <= n < 16
    ensures HexValue(HexDigit(n)) == Some(n)
  {
  }

  /** The base-16 digits of a unit make it up again. */
  lemma HexDigits(u: Unit)
    ensures u / 4096 < 16 && u / 4096 * 4096 + u / 256 % 16 * 256 + u / 16 % 16 * 16 + u % 16 == u
  {
    assert u == u / 16 * 16 + u % 16;
    assert u / 16 == u / 256 * 16 + u / 16 % 16;
    assert u / 256 == u / 4096 * 16 + u / 256 % 16;
  }

  lemma HexEscapeUndoes(u: Unit, rest: Text)
    ensures ReadEscape(HexEscape(u) + rest) == Got(u, rest)
  {
    var e := HexEscape(u) + rest;
    HexDigits(u);
    HexValueUndoes(u / 4096);
    HexValueUndoes(u / 256 % 16);
    HexValueUndoes(u / 16 % 16);
    HexValueUndoes(u % 16);
    assert e[..5] == HexEscape(u) && e[5..] == rest;
    assert e[0] == 0x75 && forall i :: 0 <= i < 5 ==> e[i] == HexEscape(u)[i];
  }

  lemma ReadEscapeUndoes(u: Unit, rest: Text)
    requires EscapeUnit(u)[0] == BACKSLASH
    ensures ReadEscape(EscapeUnit(u)[1..] + rest) == Got(u, rest)
  {
    var e := EscapeUnit(u)[1..] + rest;
    if |EscapeUnit(u)| == 2 {
      assert e[1..] == rest;
    } else {
      HexEscapeUndoes(u, rest);
      assert EscapeUnit(u)[1..] == HexEscape(u);
    }
  }

  lemma ReadRawUnit(u: Unit, tail: Text)
    requires u >= 0x20 && u != QUOTE && u != BACKSLASH && ReadString(tail).Got?
    ensures ReadString([u] + tail) == Got([u] + ReadString(tail).value, ReadString(tail).rest)
  {
    assert ([u] + tail)[1..] == tail;
  }

  lemma AfterBackslash(u: Unit, escape: Text, tail: Text)
    requires ReadEscape(escape + tail) == Got(u, tail) && ReadString(tail).Got?
    ensures ReadString([BACKSLASH] + (escape + tail)) == Got([u] + ReadString(tail).value, ReadString(tail).rest)
  {
    assert ([BACKSLASH] + (escape + tail))[1..] == escape + tail;
  }

  lemma EscapeUnitStarts(u: Unit, tail: Text)
    ensures EscapeUnit(u)[0] == BACKSLASH ==> EscapeUnit(u) + tail == [BACKSLASH] + (EscapeUnit(u)[1..] + tail)
    ensures EscapeUnit(u)[0] != BACKSLASH ==> EscapeUnit(u) == [u] && u >= 0x20 && u != QUOTE && u != BACKSLASH
  {
  }

  lemma ReadEscapedUnit(u: Unit, tail: Text)
    requires ReadString(tail).Got?
    ensures ReadString(EscapeUnit(u) + tail) == Got([u] + ReadString(tail).value, ReadString(tail).rest)
  {
    EscapeUnitStarts(u, tail);
    if EscapeUnit(u)[0] == BACKSLASH {
      ReadEscapeUndoes(u, tail);
      AfterBackslash(u, EscapeUnit(u)[1..], tail);
    } else {
      ReadRawUnit(u, tail);
    }
  }

  predicate StartsWithPair(t: Text) {
    |t| >= 2 && IsHigh(t[0]) && IsLow(t[1])
  }

  /** A string's escaped text and closing mark, followed by `rest`. */
  function Quoted(t: Text, rest: Text): Text {
    Escape(t) + [QUOTE] + rest
  }

  lemma QuotedSplits(t: Text, rest: Text)
    ensures t == [] ==> Quoted(t, rest) == [QUOTE] + rest
    ensures StartsWithPair(t) ==> Quoted(t, rest) == [t[0]] + ([t[1]] + Quoted(t[2..], rest))
    ensures t != [] && !StartsWithPair(t) ==> Quoted(t, rest) == EscapeUnit(t[0]) + Quoted(t[1..], rest)
  {
  }

  lemma {:induction false} ReadStringUndoes(t: Text, rest: Text)
    ensures ReadString(Quoted(t, rest)) == Got(t, rest)
  {
    QuotedSplits(t, rest);
    if t == [] {
      assert ([QUOTE] + rest)[1..] == rest;
    } else if StartsWithPair(t) {
      ReadStringUndoes(t[2..], rest);
      ReadRawUnit(t[1], Quoted(t[2..], rest));
      ReadRawUnit(t[0], [t[1]] + Quoted(t[2..], rest));
      assert [t[0]] + ([t[1]] + t[2..]) == t;
    } else {
      ReadStringUndoes(t[1..], rest);
      ReadEscapedUnit(t[0], Quoted(t[1..], rest));
      assert [t[0]] + t[1..] == t;
    }
  }

  lemma {:induction false} ReadNumberUndoes(t: Text, rest: Text)
    requires forall i :: 0 <= i < |t| ==> IsNumberUnit(t[i])
    requires Ends(rest)
    ensures ReadNumber(t + rest) == Got(t, rest)
  {
    if t == [] {
      assert t + rest == rest;
    } else {
      ReadNumberUndoes(t[1..], rest);
      assert (t + rest)[1..] == t[1..] + rest;
      assert [t[0]] + t[1..] == t;
    }
  }

  // ----- Sorting -----

  predicate Sorted<T>(es: seq<Entry<T>>) {
    forall i, j :: 0 <= i < j < |es| ==> Below(es[i].key, es[j].key)
  }

  lemma {:induction false} BelowOrder(a: Text, b: Text, c: Text)
    ensures !Below(a, a)
    ensures Below(a, b) && Below(b, c) ==> Below(a, c)
    ensures a == b || Below(a, b) || Below(b, a)
    ensures !(Below(a, b) && Below(b, a))
  {
    if a != [] && b != [] {
      BelowOrder(a[1..], b[1..], if c == [] then [] else c[1..]);
      assert a == [a[0]] + a[1..] && b == [b[0]] + b[1..];
    } else if a != [] {
      BelowOrder(a[1..], [], []);
    }
  }

  predicate DiffersUp(a: Text, b: Text, n: nat)
    requires n <= |a|
  {
    n < |b| && a[..n] == b[..n] && (n == |a| || a[n] < b[n])
  }

  /** The order of keys: the other goes on where one stops, or has the greater code unit where
      they first differ. */
  lemma {:induction false} BelowIff(a: Text, b: Text)
    ensures Below(a, b) <==> exists n :: 0 <= n <= |a| && DiffersUp(a, b, n)
  {
    if a != [] && b != [] && a[0] == b[0] {
      BelowIff(a[1..], b[1..]);
      if n :| 0 <= n <= |a[1..]| && DiffersUp(a[1..], b[1..], n) {
        DiffersUpStep(a, b, n + 1);
      }
      if n :| 0 <= n <= |a| && DiffersUp(a, b, n) {
        DiffersUpStep(a, b, n);
      }
    } else if Below(a, b) {
      assert DiffersUp(a, b, 0);
    } else if n :| 0 <= n <= |a| && DiffersUp(a, b, n) {
      DiffersUpHeads(a, b, n);
    }
  }

  lemma DiffersUpHeads(a: Text, b: Text, n: nat)
    requires n <= |a| && DiffersUp(a, b, n)
    ensures a != [] ==> if n == 0 then a[0] < b[0] else a[0] == b[0]
  {
    if n > 0 {
      assert a[..n][0] == b[..n][0];
    }
  }

  lemma DiffersUpStep(a: Text, b: Text, n: nat)
    requires a != [] && b != [] && a[0] == b[0] && n <= |a|
    ensures n > 0 ==> (DiffersUp(a, b, n) <==> DiffersUp(a[1..], b[1..], n - 1))
    ensures !DiffersUp(a, b, 0)
  {
    if 0 < n < |b| {
      assert a[..n] == [a[0]] + a[1..][..n - 1] && b[..n] == [b[0]] + b[1..][..n - 1];
      assert a[1..][..n - 1] == a[..n][1..] && b[1..][..n - 1] == b[..n][1..];
    }
  }

  lemma {:induction false} MapOfHas<T>(es: seq<Entry<T>>, k: Text)
    ensures k in MapOf(es) <==> exists i :: 0 <= i < |es| && es[i].key == k
    ensures Distinct(es) ==>
              forall i :: 0 <= i < |es| ==> es[i].key in MapOf(es) && MapOf(es)[es[i].key] == es[i].value
  {
    if es != [] {
      MapOfHas(es[1..], k);
      if exists i :: 0 <= i < |es| && es[i].key == k {
        var i :| 0 <= i < |es| && es[i].key == k;
        assert i > 0 ==> es[1..][i - 1].key == k;
      }
      if Distinct(es) {
        MapOfHas(es[1..], es[0].key);
        forall i | 0 <= i < |es| ensures es[i].key in MapOf(es) && MapOf(es)[es[i].key] == es[i].value {
          assert i > 0 ==> es[1..][i - 1] == es[i];
        }
      }
    }
  }

  lemma {:induction false} InsertSorts<T>(e: Entry<T>, es: seq<Entry<T>>)
    requires Sorted(es) && forall i :: 0 <= i < |es| ==> es[i].key != e.key
    ensures multiset(Insert(e, es)) == multiset(es) + multiset{e}
    ensures Sorted(Insert(e, es))
  {
    InsertKeeps(e, es);
    if es != [] {
      BelowOrder(e.key, es[0].key, []);
      assert es == [es[0]] + es[1..];
      if Below(e.key, es[0].key) {
        forall i | 0 <= i < |es| ensures Below(e.key, es[i].key) {
          BelowOrder(e.key, es[0].key, es[i].key);
        }
        SortedAfter(e, es);
      } else {
        InsertSorts(e, es[1..]);
        InsertStaysAbove(es[0].key, e, es[1..]);
        SortedAfter(es[0], Insert(e, es[1..]));
      }
    }
  }

  predicate AllAbove<T>(k: Text, es: seq<Entry<T>>) {
    forall i :: 0 <= i < |es| ==> Below(k, es[i].key)
  }

  lemma {:induction false} InsertKeeps<T>(e: Entry<T>, es: seq<Entry<T>>)
    ensures multiset(Insert(e, es)) == multiset(es) + multiset{e}
  {
    if es != [] && !Below(e.key, es[0].key) {
      InsertKeeps(e, es[1..]);
      assert es == [es[0]] + es[1..];
    }
  }

  lemma InsertStaysAbove<T>(k: Text, e: Entry<T>, es: seq<Entry<T>>)
    requires AllAbove(k, es) && Below(k, e.key)
    ensures AllAbove(k, Insert(e, es))
  {
    var r := Insert(e, es);
    InsertKeeps(e, es);
    forall i | 0 <= i < |r| ensures Below(k, r[i].key) {
      assert r[i] in multiset(r);
      assert r[i] == e || r[i] in es;
    }
  }

  lemma SortedAfter<T>(e: Entry<T>, es: seq<Entry<T>>)
    requires Sorted(es) && AllAbove(e.key, es)
    ensures Sorted([e] + es)
  {
  }

  lemma {:induction false} SortSorts<T>(es: seq<Entry<T>>)
    requires Distinct(es)
    ensures multiset(Sort(es)) == multiset(es)
    ensures Sorted(Sort(es))
  {
    if es != [] {
      var r := Sort(es[1..]);
      SortSorts(es[1..]);
      assert es == [es[0]] + es[1..];
      forall i | 0 <= i < |r| ensures r[i].key != es[0].key {
        assert r[i] in multiset(r);
        assert r[i] in es[1..];
      }
      InsertSorts(es[0], r);
    }
  }

  lemma SortedDistinct<T>(es: seq<Entry<T>>)
    requires Sorted(es)
    ensures Distinct(es)
  {
    forall i, j | 0 <= i < j < |es| ensures es[i].key != es[j].key {
      BelowOrder(es[i].key, es[j].key, []);
    }
  }

  lemma SortKeepsMap<T>(es: seq<Entry<T>>)
    requires Distinct(es)
    ensures MapOf(Sort(es)) == MapOf(es)
  {
    var r := Sort(es);
    SortSorts(es);
    SortedDistinct(r);
    forall k ensures k in MapOf(r) <==> k in MapOf(es)
             ensures k in MapOf(r) && k in MapOf(es) ==> MapOf(r)[k] == MapOf(es)[k] {
      MapOfHas(es, k);
      MapOfHas(r, k);
      if k in MapOf(r) {
        var i :| 0 <= i < |r| && r[i].key == k;
        assert r[i] in multiset(es);
        assert r[i] in es;
      }
      if k in MapOf(es) {
        var i :| 0 <= i < |es| && es[i].key == k;
        assert es[i] in multiset(r);
        assert es[i] in r;
      }
    }
  }

  /** Only one sorted list of members stands for a given map. */
  lemma {:induction false} SortedUnique<T>(es: seq<Entry<T>>, fs: seq<Entry<T>>)
    requires Sorted(es) && Sorted(fs) && MapOf(es) == MapOf(fs)
    ensures es == fs
  {
    SortedDistinct(es);
    SortedDistinct(fs);
    if es == [] {
      if fs != [] { MapOfHas(fs, fs[0].key); }
    } else if fs == [] {
      MapOfHas(es, es[0].key);
    } else {
      MapOfHas(es, fs[0].key);
      MapOfHas(fs, es[0].key);
      BelowOrder(es[0].key, fs[0].key, []);
      assert es[0].key == fs[0].key;
      TailMap(es);
      TailMap(fs);
      SortedUnique(es[1..], fs[1..]);
      assert es == [es[0]] + es[1..] && fs == [fs[0]] + fs[1..];
    }
  }

  lemma TailMap<T>(es: seq<Entry<T>>)
    requires es != [] && Distinct(es)
    ensures MapOf(es[1..]) == MapOf(es) - {es[0].key}
  {
    MapOfHas(es[1..], es[0].key);
  }

  /** Members with the same map print in the same order. */
  lemma SortIgnoresOrder<T>(es: seq<Entry<T>>, fs: seq<Entry<T>>)
    requires Distinct(es) && Distinct(fs) && MapOf(es) == MapOf(fs)
    ensures Sort(es) == Sort(fs)
  {
    SortKeepsMap(es);
    SortKeepsMap(fs);
    SortSorts(es);
    SortSorts(fs);
    SortedUnique(Sort(es), Sort(fs));
  }

  // ----- Parsing a printed value -----

  lemma UseParsesTo(t: Text, v: Value, rest: Text)
    requires ParsesTo(t, v) && Ends(rest)
    ensures Parse(t + rest) == Got(v, rest)
  {
  }

  lemma Regroup(a: Text, b: Text, c: Text, d: Text)
    ensures a + b + c + d == a + (b + (c + d))
  {
  }

  lemma JoinSplits(ts: seq<Text>, tail: Text)
    ensures |ts| == 1 ==> Join(ts) + tail == ts[0] + tail
    ensures |ts| > 1 ==> Join(ts) + tail == ts[0] + ([COMMA] + (Join(ts[1..]) + tail))
  {
    if |ts| > 1 {
      Regroup(ts[0], [COMMA], Join(ts[1..]), tail);
    }
  }

  lemma LastItem(t: Text, v: Value, rest: Text)
    requires ParsesTo(t, v)
    ensures ParseItems(t + ([RBRACKET] + rest)) == Got([v], rest)
  {
    UseParsesTo(t, v, [RBRACKET] + rest);
  }

  lemma NextItem(t: Text, v: Value, tail: Text)
    requires ParsesTo(t, v) && ParseItems(tail).Got?
    ensures ParseItems(t + ([COMMA] + tail)) == Got([v] + ParseItems(tail).value, ParseItems(tail).rest)
  {
    UseParsesTo(t, v, [COMMA] + tail);
    assert ([COMMA] + tail)[1..] == tail;
  }

  lemma {:induction false} ParseItemsUndoes(ts: seq<Text>, vs: seq<Value>, rest: Text)
    requires |ts| == |vs| > 0
    requires forall i :: 0 <= i < |ts| ==> ParsesTo(ts[i], vs[i])
    ensures ParseItems(Join(ts) + ([RBRACKET] + rest)) == Got(vs, rest)
  {
    JoinSplits(ts, [RBRACKET] + rest);
    if |ts| == 1 {
      LastItem(ts[0], vs[0], rest);
      assert vs == [vs[0]];
    } else {
      ParseItemsUndoes(ts[1..], vs[1..], rest);
      NextItem(ts[0], vs[0], Join(ts[1..]) + ([RBRACKET] + rest));
      assert vs == [vs[0]] + vs[1..];
    }
  }

  /** A member's text: quoted key, colon, value. */
  function Pair(e: Entry<Text>): Text {
    Quote(e.key) + [COLON] + e.value
  }

  lemma ReadKey(e: Entry<Text>, tail: Text)
    ensures (Pair(e) + tail)[0] == QUOTE
    ensures ReadString((Pair(e) + tail)[1..]) == Got(e.key, [COLON] + (e.value + tail))
  {
    ReadStringUndoes(e.key, [COLON] + (e.value + tail));
    assert (Pair(e) + tail)[1..] == Quoted(e.key, [COLON] + (e.value + tail));
  }

  lemma LastMember(e: Entry<Text>, v: Value, rest: Text)
    requires ParsesTo(e.value, v)
    ensures ParseMembers(Pair(e) + ([RBRACE] + rest)) == Got(map[e.key := v], rest)
  {
    ReadKey(e, [RBRACE] + rest);
    UseParsesTo(e.value, v, [RBRACE] + rest);
    assert ([COLON] + (e.value + ([RBRACE] + rest)))[1..] == e.value + ([RBRACE] + rest);
  }

  lemma NextMember(e: Entry<Text>, v: Value, tail: Text)
    requires ParsesTo(e.value, v) && ParseMembers(tail).Got?
    ensures ParseMembers(Pair(e) + ([COMMA] + tail))
            == Got(map[e.key := v] + ParseMembers(tail).value, ParseMembers(tail).rest)
  {
    ReadKey(e, [COMMA] + tail);
    UseParsesTo(e.value, v, [COMMA] + tail);
    assert ([COLON] + (e.value + ([COMMA] + tail)))[1..] == e.value + ([COMMA] + tail);
    assert ([COMMA] + tail)[1..] == tail;
  }

  predicate HasKey<T>(es: seq<Entry<T>>, k: Text) {
    exists i :: 0 <= i < |es| && es[i].key == k
  }

  lemma HasKeySplits<T>(es: seq<Entry<T>>, k: Text)
    requires es != []
    ensures HasKey(es, k) <==> es[0].key == k || HasKey(es[1..], k)
  {
    if HasKey(es, k) {
      var i :| 0 <= i < |es| && es[i].key == k;
      assert i > 0 ==> es[1..][i - 1].key == k;
    }
    if HasKey(es[1..], k) {
      var i :| 0 <= i < |es[1..]| && es[1..][i].key == k;
      assert es[i + 1].key == k;
    }
  }

  /** `r` holds the keys of `es`, each with its value in `m`. */
  ghost predicate Selects(r: map<Text, Value>, es: seq<Entry<Text>>, m: map<Text, Value>) {
    forall k :: (k in r <==> HasKey(es, k)) && (k in r ==> k in m && r[k] == m[k])
  }

  lemma SelectsStep(r: map<Text, Value>, es: seq<Entry<Text>>, m: map<Text, Value>)
    requires es != [] && es[0].key in m
    ensures |es| == 1 ==> Selects(map[es[0].key := m[es[0].key]], es, m)
    ensures Selects(r, es[1..], m) ==> Selects(map[es[0].key := m[es[0].key]] + r, es, m)
  {
    forall k ensures HasKey(es, k) <==> es[0].key == k || HasKey(es[1..], k) {
      HasKeySplits(es, k);
    }
  }

  ghost predicate MembersParseTo(es: seq<Entry<Text>>, m: map<Text, Value>) {
    forall i :: 0 <= i < |es| ==> es[i].key in m && ParsesTo(es[i].value, m[es[i].key])
  }

  lemma {:induction false} ParseMembersUndoes(es: seq<Entry<Text>>, m: map<Text, Value>, rest: Text)
    requires es != [] && MembersParseTo(es, m)
    ensures var r := ParseMembers(Join(Pairs(es)) + ([RBRACE] + rest));
            r.Got? && r.rest == rest && Selects(r.value, es, m)
  {
    PairsSplit(es, rest);
    if |es| == 1 {
      LastMember(es[0], m[es[0].key], rest);
      SelectsStep(map[], es, m);
    } else {
      var tail := Join(Pairs(es[1..])) + ([RBRACE] + rest);
      ParseMembersUndoes(es[1..], m, rest);
      NextMember(es[0], m[es[0].key], tail);
      SelectsStep(ParseMembers(tail).value, es, m);
    }
  }

  lemma PairsSplit(es: seq<Entry<Text>>, rest: Text)
    requires es != []
    ensures |es| == 1 ==> Join(Pairs(es)) + ([RBRACE] + rest) == Pair(es[0]) + ([RBRACE] + rest)
    ensures |es| > 1 ==> Join(Pairs(es)) + ([RBRACE] + rest)
                         == Pair(es[0]) + ([COMMA] + (Join(Pairs(es[1..])) + ([RBRACE] + rest)))
  {
    JoinSplits(Pairs(es), [RBRACE] + rest);
    assert Pairs(es)[0] == Pair(es[0]);
    assert Pairs(es)[1..] == Pairs(es[1..]);
  }

  /** No value's text is empty or starts with a closing bracket. */
  lemma CanonicalStarts(v: Json)
    requires WellFormed(v)
    ensures Canonical(v) != [] && Canonical(v)[0] != RBRACKET && Canonical(v)[0] != RBRACE
  {
  }

  lemma LiteralParses(b: bool, rest: Text)
    ensures Parse(NULL + rest) == Got(VNull, rest)
    ensures Parse(TRUE + rest) == Got(VBool(true), rest)
    ensures Parse(FALSE + rest) == Got(VBool(false), rest)
  {
    assert (NULL + rest)[4..] == rest && (TRUE + rest)[4..] == rest && (FALSE + rest)[5..] == rest;
    assert (TRUE + rest)[0] == 0x74 && (FALSE + rest)[0] == 0x66 && NULL[0] == 0x6E;
  }

  lemma NumberParses(t: Text, rest: Text)
    requires WellFormed(Number(t)) && Ends(rest)
    ensures Parse(t + rest) == Got(VNumber(t), rest)
  {
    ReadNumberUndoes(t, rest);
    assert (t + rest)[0] == t[0];
  }

  lemma StringParses(t: Text, rest: Text)
    ensures Parse(Quote(t) + rest) == Got(VString(t), rest)
  {
    ReadStringUndoes(t, rest);
    assert (Quote(t) + rest)[1..] == Quoted(t, rest);
    assert (Quote(t) + rest)[0] == QUOTE;
  }

  lemma EmptyParses(rest: Text)
    ensures Parse([LBRACKET] + [] + [RBRACKET] + rest) == Got(VArray([]), rest)
    ensures Parse([LBRACE] + [] + [RBRACE] + rest) == Got(VObject(map[]), rest)
  {
    assert ([LBRACKET] + [] + [RBRACKET] + rest)[2..] == rest;
    assert ([LBRACE] + [] + [RBRACE] + rest)[2..] == rest;
  }

  lemma ParseArrayStep(s: Text, t: Text)
    requires |s| >= 2 && s[0] == LBRACKET && s[1] != RBRACKET && s[1..] == t && ParseItems(t).Got?
    ensures Parse(s) == Got(VArray(ParseItems(t).value), ParseItems(t).rest)
  {
  }

  lemma ParseObjectStep(s: Text, t: Text)
    requires |s| >= 2 && s[0] == LBRACE && s[1] != RBRACE && s[1..] == t && ParseMembers(t).Got?
    ensures Parse(s) == Got(VObject(ParseMembers(t).value), ParseMembers(t).rest)
  {
  }

  lemma BracketsSplit(open: Text, body: Text, close: Text, rest: Text)
    requires |open| == |close| == 1 && body != []
    ensures var s := open + body + close + rest;
            |s| >= 2 && s[0] == open[0] && s[1] == body[0] && s[1..] == body + (close + rest)
  {
  }

  lemma JoinStarts(ts: seq<Text>)
    requires ts != [] && ts[0] != []
    ensures Join(ts) != [] && Join(ts)[0] == ts[0][0]
  {
  }

  lemma SameKeys<T>(es: seq<Entry<Text>>, ps: seq<Entry<Text>>, vs: seq<Entry<T>>, k: Text)
    requires multiset(es) == multiset(ps)
    requires |ps| == |vs| && forall i :: 0 <= i < |ps| ==> ps[i].key == vs[i].key
    ensures HasKey(es, k) <==> k in MapOf(vs)
  {
    MapOfHas(vs, k);
    if HasKey(es, k) {
      var i :| 0 <= i < |es| && es[i].key == k;
      assert es[i] in multiset(ps);
      var j :| 0 <= j < |ps| && ps[j] == es[i];
      assert vs[j].key == k;
    }
    if k in MapOf(vs) {
      var j :| 0 <= j < |vs| && vs[j].key == k;
      assert ps[j] in multiset(es);
      var i :| 0 <= i < |es| && es[i] == ps[j];
    }
  }

  lemma MemberParses(ps: seq<Entry<Text>>, vs: seq<Entry<Value>>, e: Entry<Text>)
    requires |ps| == |vs| && Distinct(vs) && e in multiset(ps)
    requires forall i :: 0 <= i < |ps| ==> ps[i].key == vs[i].key && ParsesTo(ps[i].value, vs[i].value)
    ensures e.key in MapOf(vs) && ParsesTo(e.value, MapOf(vs)[e.key])
  {
    var j :| 0 <= j < |ps| && ps[j] == e;
    MapOfHas(vs, e.key);
    assert vs[j].key == e.key;
  }

  /** The sorted printed members still stand for the members' meaning. */
  lemma SortedMembersParse(members: seq<Entry<Json>>)
    requires Distinct(members)
    requires forall i :: 0 <= i < |members| ==>
               ParsesTo(Canonical(members[i].value), Meaning(members[i].value))
    ensures var es, m := Sort(CanonicalMembers(members)), MapOf(MeaningMembers(members));
            && MembersParseTo(es, m) && |es| == |members|
            && forall k :: HasKey(es, k) <==> k in m
  {
    var ps, vs := CanonicalMembers(members), MeaningMembers(members);
    var es := Sort(ps);
    SortSorts(ps);
    assert |es| == |multiset(es)| == |ps|;
    forall k ensures HasKey(es, k) <==> k in MapOf(vs) {
      SameKeys(es, ps, vs, k);
    }
    forall i | 0 <= i < |es|
      ensures es[i].key in MapOf(vs) && ParsesTo(es[i].value, MapOf(vs)[es[i].key])
    {
      assert es[i] in multiset(ps);
      MemberParses(ps, vs, es[i]);
    }
  }

  lemma {:induction false} CanonicalParses(v: Json)
    requires WellFormed(v)
    ensures ParsesTo(Canonical(v), Meaning(v))
  {
    forall rest | Ends(rest) ensures Parse(Canonical(v) + rest) == Got(Meaning(v), rest) {
      match v {
        case Number(t) => NumberParses(t, rest);
        case String(t) => StringParses(t, rest);
        case Array(items) => ArrayValueParses(items, rest);
        case Object(members) => ObjectValueParses(members, rest);
        case _ => LiteralParses(true, rest);
      }
    }
  }

  lemma {:induction false} ArrayValueParses(items: seq<Json>, rest: Text)
    requires WellFormed(Array(items))
    ensures Parse(Canonical(Array(items)) + rest) == Got(Meaning(Array(items)), rest)
    decreases items, 0
  {
    var ts, vs := CanonicalItems(items), MeaningItems(items);
    if items == [] {
      EmptyParses(rest);
    } else {
      forall i | 0 <= i < |items| ensures ParsesTo(ts[i], vs[i]) {
        CanonicalParses(items[i]);
      }
      CanonicalStarts(items[0]);
      JoinStarts(ts);
      ParseItemsUndoes(ts, vs, rest);
      BracketsSplit([LBRACKET], Join(ts), [RBRACKET], rest);
      ParseArrayStep(Canonical(Array(items)) + rest, Join(ts) + ([RBRACKET] + rest));
    }
  }

  lemma {:induction false} ObjectValueParses(members: seq<Entry<Json>>, rest: Text)
    requires WellFormed(Object(members))
    ensures Parse(Canonical(Object(members)) + rest) == Got(Meaning(Object(members)), rest)
    decreases members, 0
  {
    var es, m := Sort(CanonicalMembers(members)), MapOf(MeaningMembers(members));
    if members == [] {
      EmptyParses(rest);
    } else {
      forall i | 0 <= i < |members|
        ensures ParsesTo(Canonical(members[i].value), Meaning(members[i].value))
      {
        CanonicalParses(members[i].value);
      }
      SortedMembersParse(members);
      ParseMembersUndoes(es, m, rest);
      var r := ParseMembers(Join(Pairs(es)) + ([RBRACE] + rest));
      assert r.value == m;
      JoinStarts(Pairs(es));
      BracketsSplit([LBRACE], Join(Pairs(es)), [RBRACE], rest);
      ParseObjectStep(Canonical(Object(members)) + rest, Join(Pairs(es)) + ([RBRACE] + rest));
    }
  }

  // ----- The theorems -----

  /** Parsing the canonical text of a JSON value gives back what the value means. */
  lemma ParseInvertsCanonical(v: Json)
    requires WellFormed(v)
    ensures Parse(Canonical(v)) == Got(Meaning(v), [])
  {
    CanonicalParses(v);
    UseParsesTo(Canonical(v), Meaning(v), []);
    assert Canonical(v) + [] == Canonical(v);
  }

  lemma MapOfAt<T>(es: seq<Entry<T>>, i: nat)
    requires Distinct(es) && i < |es|
    ensures es[i].key in MapOf(es) && MapOf(es)[es[i].key] == es[i].value
  {
    MapOfHas(es, es[i].key);
  }

  lemma MapOfIndex<T>(es: seq<Entry<T>>, k: Text) returns (i: nat)
    requires k in MapOf(es)
    ensures i < |es| && es[i].key == k
  {
    MapOfHas(es, k);
    i :| i < |es| && es[i].key == k;
  }

  ghost predicate SameTexts(ms: seq<Entry<Json>>, ns: seq<Entry<Json>>) {
    forall i, j :: 0 <= i < |ms| && 0 <= j < |ns| && ms[i].key == ns[j].key ==>
      Canonical(ms[i].value) == Canonical(ns[j].value)
  }

  lemma MembersIncluded(ms: seq<Entry<Json>>, ns: seq<Entry<Json>>, k: Text)
    requires Distinct(ms) && Distinct(ns) && SameTexts(ms, ns)
    requires MapOf(MeaningMembers(ms)) == MapOf(MeaningMembers(ns))
    requires k in MapOf(CanonicalMembers(ms))
    ensures k in MapOf(CanonicalMembers(ns))
    ensures MapOf(CanonicalMembers(ms))[k] == MapOf(CanonicalMembers(ns))[k]
  {
    var i := MapOfIndex(CanonicalMembers(ms), k);
    MapOfAt(MeaningMembers(ms), i);
    var j := MapOfIndex(MeaningMembers(ns), k);
    MapOfAt(CanonicalMembers(ms), i);
    MapOfAt(CanonicalMembers(ns), j);
    assert ms[i].key == k && ns[j].key == k;
  }

  lemma SameMembersSameText(ms: seq<Entry<Json>>, ns: seq<Entry<Json>>)
    requires Distinct(ms) && Distinct(ns) && SameTexts(ms, ns)
    requires MapOf(MeaningMembers(ms)) == MapOf(MeaningMembers(ns))
    ensures Canonical(Object(ms)) == Canonical(Object(ns))
  {
    assert SameTexts(ns, ms);
    AllMembersIncluded(ms, ns);
    AllMembersIncluded(ns, ms);
    MapsEqual(MapOf(CanonicalMembers(ms)), MapOf(CanonicalMembers(ns)));
    SortIgnoresOrder(CanonicalMembers(ms), CanonicalMembers(ns));
  }

  ghost predicate MapIncluded(ps: map<Text, Text>, qs: map<Text, Text>) {
    forall k :: k in ps ==> k in qs && ps[k] == qs[k]
  }

  lemma MapsEqual(ps: map<Text, Text>, qs: map<Text, Text>)
    requires MapIncluded(ps, qs) && MapIncluded(qs, ps)
    ensures ps == qs
  {
  }

  lemma AllMembersIncluded(ms: seq<Entry<Json>>, ns: seq<Entry<Json>>)
    requires Distinct(ms) && Distinct(ns) && SameTexts(ms, ns)
    requires MapOf(MeaningMembers(ms)) == MapOf(MeaningMembers(ns))
    ensures MapIncluded(MapOf(CanonicalMembers(ms)), MapOf(CanonicalMembers(ns)))
  {
    forall k | k in MapOf(CanonicalMembers(ms))
      ensures k in MapOf(CanonicalMembers(ns)) && MapOf(CanonicalMembers(ms))[k] == MapOf(CanonicalMembers(ns))[k]
    {
      MembersIncluded(ms, ns, k);
    }
  }

  lemma SameMeaningMember(ms: seq<Entry<Json>>, ns: seq<Entry<Json>>, i: nat, j: nat)
    requires Distinct(ms) && Distinct(ns)
    requires MapOf(MeaningMembers(ms)) == MapOf(MeaningMembers(ns))
    requires i < |ms| && j < |ns| && ms[i].key == ns[j].key
    ensures Meaning(ms[i].value) == Meaning(ns[j].value)
  {
    MapOfAt(MeaningMembers(ms), i);
    MapOfAt(MeaningMembers(ns), j);
  }

  lemma {:induction false} SameMeaningSameText(v: Json, w: Json)
    requires WellFormed(v) && WellFormed(w) && Meaning(v) == Meaning(w)
    ensures Canonical(v) == Canonical(w)
  {
    match v {
      case Array(items) => SameItemsSameText(items, w.items);
      case Object(members) =>
        forall i, j | 0 <= i < |members| && 0 <= j < |w.members| && members[i].key == w.members[j].key
          ensures Canonical(members[i].value) == Canonical(w.members[j].value)
        {
          SameMeaningMember(members, w.members, i, j);
          SameMeaningSameText(members[i].value, w.members[j].value);
        }
        SameMembersSameText(members, w.members);
      case _ =>
    }
  }

  lemma {:induction false} SameItemsSameText(vs: seq<Json>, ws: seq<Json>)
    requires WellFormed(Array(vs)) && WellFormed(Array(ws)) && MeaningItems(vs) == MeaningItems(ws)
    ensures CanonicalItems(vs) == CanonicalItems(ws)
  {
    forall i | 0 <= i < |vs| ensures CanonicalItems(vs)[i] == CanonicalItems(ws)[i] {
      assert MeaningItems(vs)[i] == MeaningItems(ws)[i];
      SameMeaningSameText(vs[i], ws[i]);
    }
  }

  /** The canonical text is injective up to key order at every depth, and blind to it. */
  lemma CanonicalIffSameMeaning(v: Json, w: Json)
    requires WellFormed(v) && WellFormed(w)
    ensures Canonical(v) == Canonical(w) <==> Meaning(v) == Meaning(w)
  {
    if Canonical(v) == Canonical(w) {
      ParseInvertsCanonical(v);
      ParseInvertsCanonical(w);
    }
    if Meaning(v) == Meaning(w) {
      SameMeaningSameText(v, w);
    }
  }

  /** Outside JSON values it is not injective: an undefined item prints as nothing. */
  lemma UndefinedItemIsLost()
    ensures Canonical(Array([Undefined])) == Canonical(Array([]))
    ensures Meaning(Array([Undefined])) != Meaning(Array([]))
  {
    assert CanonicalItems([Undefined]) == [[]];
    assert |MeaningItems([Undefined])| == 1;
  }

  // ----- The checksum input of a report manifest -----

  datatype Artifact = Artifact(filename: Text, contentType: Text, rowCount: Text, checksum: Text, generatedAt: Text)

  /** `createReportSnapshotManifest`'s snapshotWithoutChecksum; `rowCount` is a number's text. */
  datatype Manifest = Manifest(
    snapshotId: Text, tenantId: Text, area: Text, reportId: Text, title: Text, format: Text,
    artifact: Artifact, filters: seq<Entry<Json>>, generatedBy: Option<Text>)

  function ArtifactMembers(a: Artifact): seq<Entry<Json>> {
    [Entry(Ascii("filename"), String(a.filename)),
     Entry(Ascii("content_type"), String(a.contentType)),
     Entry(Ascii("row_count"), Number(a.rowCount)),
     Entry(Ascii("checksum_sha256"), String(a.checksum)),
     Entry(Ascii("generated_at"), String(a.generatedAt))]
  }

  function ManifestMembers(m: Manifest): seq<Entry<Json>> {
    [Entry(Ascii("snapshot_id"), String(m.snapshotId)),
     Entry(Ascii("tenant_id"), String(m.tenantId)),
     Entry(Ascii("module"), String(m.area)),
     Entry(Ascii("report_id"), String(m.reportId)),
     Entry(Ascii("title"), String(m.title)),
     Entry(Ascii("format"), String(m.format)),
     Entry(Ascii("artifact"), Object(ArtifactMembers(m.artifact))),
     Entry(Ascii("filters"), Object(m.filters)),
     Entry(Ascii("generated_by_user_id"), if m.generatedBy.Some? then String(m.generatedBy.value) else Null)]
  }

  function ChecksumInput(m: Manifest): Text {
    Canonical(Object(ManifestMembers(m)))
  }

  predicate ManifestWellFormed(m: Manifest) {
    WellFormed(Object(m.filters)) && WellFormed(Number(m.artifact.rowCount))
  }

  predicate SameManifest(m: Manifest, n: Manifest) {
    m.(filters := n.filters) == n && Meaning(Object(m.filters)) == Meaning(Object(n.filters))
  }

  /** Objects with the same keys in the same places mean the same if their values do. */
  lemma SameKeysSameMeaning(ms: seq<Entry<Json>>, ns: seq<Entry<Json>>)
    requires Distinct(ms) && Distinct(ns) && |ms| == |ns|
    requires forall i :: 0 <= i < |ms| ==> ms[i].key == ns[i].key
    ensures Meaning(Object(ms)) == Meaning(Object(ns)) <==>
              forall i :: 0 <= i < |ms| ==> Meaning(ms[i].value) == Meaning(ns[i].value)
  {
    var vs, us := MeaningMembers(ms), MeaningMembers(ns);
    if MapOf(vs) == MapOf(us) {
      forall i | 0 <= i < |ms| ensures Meaning(ms[i].value) == Meaning(ns[i].value) {
        SameMeaningMember(ms, ns, i, i);
      }
    }
    if forall i :: 0 <= i < |ms| ==> Meaning(ms[i].value) == Meaning(ns[i].value) {
      assert forall i :: 0 <= i < |ms| ==> vs[i] == us[i];
      assert vs == us;
    }
  }

  lemma ManifestKeysDistinct(m: Manifest)
    ensures Distinct(ManifestMembers(m)) && Distinct(ArtifactMembers(m.artifact))
  {
    var ms := ManifestMembers(m);
    assert ms[1].key[0] == 't' as int && ms[3].key[0] == 'r' as int;
    assert ms[2].key[0] == 'm' as int && ms[5].key[0] == 'f' as int;
    assert |ms[0].key| == 11 && |ms[1].key| == 9 && |ms[2].key| == 6 && |ms[3].key| == 9 && |ms[4].key| == 5;
    assert |ms[5].key| == 6 && |ms[6].key| == 8 && |ms[7].key| == 7 && |ms[8].key| == 20;
    ArtifactKeysDistinct(m.artifact);
  }

  lemma ArtifactKeysDistinct(a: Artifact)
    ensures Distinct(ArtifactMembers(a))
  {
    var bs := ArtifactMembers(a);
    assert bs[1].key[0] == 'c' as int && bs[4].key[0] == 'g' as int;
    assert |bs[0].key| == 8 && |bs[1].key| == 12 && |bs[2].key| == 9 && |bs[3].key| == 15 && |bs[4].key| == 12;
  }

  lemma SameArtifact(a: Artifact, b: Artifact)
    requires Distinct(ArtifactMembers(a)) && Distinct(ArtifactMembers(b))
    ensures Meaning(Object(ArtifactMembers(a))) == Meaning(Object(ArtifactMembers(b))) <==> a == b
  {
    var ms, ns := ArtifactMembers(a), ArtifactMembers(b);
    SameKeysSameMeaning(ms, ns);
    if Meaning(Object(ms)) == Meaning(Object(ns)) {
      assert Meaning(ms[0].value) == Meaning(ns[0].value) && Meaning(ms[1].value) == Meaning(ns[1].value);
      assert Meaning(ms[2].value) == Meaning(ns[2].value) && Meaning(ms[3].value) == Meaning(ns[3].value);
      assert Meaning(ms[4].value) == Meaning(ns[4].value);
    }
  }

  lemma SameMeaningManifests(m: Manifest, n: Manifest)
    requires forall i :: 0 <= i < 9 ==> Meaning(ManifestMembers(m)[i].value) == Meaning(ManifestMembers(n)[i].value)
    ensures SameManifest(m, n)
  {
    var ms, ns := ManifestMembers(m), ManifestMembers(n);
    ManifestKeysDistinct(m);
    ManifestKeysDistinct(n);
    SameArtifact(m.artifact, n.artifact);
    assert Meaning(ms[0].value) == Meaning(ns[0].value) && Meaning(ms[1].value) == Meaning(ns[1].value);
    assert Meaning(ms[2].value) == Meaning(ns[2].value) && Meaning(ms[3].value) == Meaning(ns[3].value);
    assert Meaning(ms[4].value) == Meaning(ns[4].value) && Meaning(ms[5].value) == Meaning(ns[5].value);
    assert Meaning(ms[6].value) == Meaning(ns[6].value) && Meaning(ms[7].value) == Meaning(ns[7].value);
    assert Meaning(ms[8].value) == Meaning(ns[8].value);
  }

  lemma SameManifestMeaning(m: Manifest, n: Manifest)
    ensures Meaning(Object(ManifestMembers(m))) == Meaning(Object(ManifestMembers(n))) <==> SameManifest(m, n)
  {
    ManifestKeysDistinct(m);
    ManifestKeysDistinct(n);
    SameKeysSameMeaning(ManifestMembers(m), ManifestMembers(n));
    if Meaning(Object(ManifestMembers(m))) == Meaning(Object(ManifestMembers(n))) {
      SameMeaningManifests(m, n);
    }
  }

  lemma ManifestIsJson(m: Manifest)
    requires ManifestWellFormed(m)
    ensures WellFormed(Object(ManifestMembers(m)))
  {
    ManifestKeysDistinct(m);
  }

  /** Equal checksum inputs mean equal manifests, up to the key order of the filters. */
  lemma ChecksumInputIffSameManifest(m: Manifest, n: Manifest)
    requires ManifestWellFormed(m) && ManifestWellFormed(n)
    ensures ChecksumInput(m) == ChecksumInput(n) <==> SameManifest(m, n)
  {
    ManifestIsJson(m);
    ManifestIsJson(n);
    CanonicalIffSameMeaning(Object(ManifestMembers(m)), Object(ManifestMembers(n)));
    SameManifestMeaning(m, n);
  }

  /** What the members of an object read back as, one key and value at a time. */
  lemma MemberReadsBack(members: seq<Entry<Json>>, i: nat)
    requires Distinct(members) && i < |members|
    ensures var m := Meaning(Object(members)).members;
            members[i].key in m && m[members[i].key] == Meaning(members[i].value)
  {
    MapOfAt(MeaningMembers(members), i);
  }

  lemma ArtifactReadsBack(a: Artifact)
    ensures var m := Meaning(Object(ArtifactMembers(a))).members;
      && Holds(m, "filename", VString(a.filename)) && Holds(m, "content_type", VString(a.contentType))
      && Holds(m, "row_count", VNumber(a.rowCount)) && Holds(m, "checksum_sha256", VString(a.checksum))
      && Holds(m, "generated_at", VString(a.generatedAt))
      && |m| == 5
  {
    var ms := ArtifactMembers(a);
    ArtifactKeysDistinct(a);
    MemberReadsBack(ms, 0);
    MemberReadsBack(ms, 1);
    MemberReadsBack(ms, 2);
    MemberReadsBack(ms, 3);
    MemberReadsBack(ms, 4);
    MapOfSize(MeaningMembers(ms));
  }

  predicate Holds(m: map<Text, Value>, key: string, value: Value)
    requires forall i :: 0 <= i < |key| ==> key[i] < 128 as char
  {
    Ascii(key) in m && m[Ascii(key)] == value
  }

  lemma {:induction false} MapOfSize<T>(es: seq<Entry<T>>)
    requires Distinct(es)
    ensures |MapOf(es)| == |es|
  {
    if es != [] {
      MapOfSize(es[1..]);
      MapOfHas(es[1..], es[0].key);
      assert MapOf(es).Keys == {es[0].key} + MapOf(es[1..]).Keys;
      assert |MapOf(es).Keys| == 1 + |MapOf(es[1..]).Keys|;
    }
  }

  predicate HoldsReport(members: map<Text, Value>, m: Manifest) {
    && Holds(members, "snapshot_id", VString(m.snapshotId)) && Holds(members, "tenant_id", VString(m.tenantId))
    && Holds(members, "module", VString(m.area)) && Holds(members, "report_id", VString(m.reportId))
    && Holds(members, "title", VString(m.title))
  }

  predicate HoldsContent(members: map<Text, Value>, m: Manifest) {
    && Holds(members, "format", VString(m.format))
    && Holds(members, "artifact", Meaning(Object(ArtifactMembers(m.artifact))))
    && Holds(members, "filters", Meaning(Object(m.filters)))
    && Holds(members, "generated_by_user_id",
             match m.generatedBy case Some(user) => VString(user) case None => VNull)
  }

  /** The checksum input of a manifest is JSON text of an object with these nine members. */
  lemma ChecksumInputReadsBack(m: Manifest)
    requires ManifestWellFormed(m)
    ensures var r := Parse(ChecksumInput(m));
      && r.Got? && r.rest == [] && r.value.VObject? && |r.value.members| == 9
      && HoldsReport(r.value.members, m) && HoldsContent(r.value.members, m)
  {
    var ms := ManifestMembers(m);
    ManifestIsJson(m);
    ManifestKeysDistinct(m);
    ParseInvertsCanonical(Object(ms));
    MapOfSize(MeaningMembers(ms));
    MemberReadsBack(ms, 0);
    MemberReadsBack(ms, 1);
    MemberReadsBack(ms, 2);
    MemberReadsBack(ms, 3);
    MemberReadsBack(ms, 4);
    MemberReadsBack(ms, 5);
    MemberReadsBack(ms, 6);
    MemberReadsBack(ms, 7);
    MemberReadsBack(ms, 8);
  }
}
