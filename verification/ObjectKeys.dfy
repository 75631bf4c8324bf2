/**
 Object keys of stored files: how a storage path becomes the path of a URL, and which
 paths a tenant may use. Percent-encoding is that of sections 2.1 and 2.3 of RFC 3986,
 over the UTF-8 bytes of RFC 3629; dot segments are those of section 5.2.4 of RFC 3986.
 */
module ObjectKeys {
  import opened Common
  import opened Text

  type byte = b: int | 0 <= b < 256

  // ----- UTF-8 -----

  function Utf8Char(c: char): (r: seq<byte>)
    ensures 1 <= |r| <= 4
    ensures c as int < 0x80 ==> r == [c as int]
    ensures c as int >= 0x80 ==> forall i :: 0 <= i < |r| ==> r[i] >= 0x80
  {
    var n := c as int;
    if n < 0x80 then [n]
    else if n < 0x800 then [0xC0 + n / 64, 0x80 + n % 64]
    else if n < 0x1_0000 then [0xE0 + n / 4096, 0x80 + n / 64 % 64, 0x80 + n % 64]
    else [0xF0 + n / 262144, 0x80 + n / 4096 % 64, 0x80 + n / 64 % 64, 0x80 + n % 64]
  }

  function Utf8(s: string): seq<byte> {
    if s == "" then [] else Utf8Char(s[0]) + Utf8(s[1..])
  }

  predicate Continues(b: byte) {
    0x80 <= b < 0xC0
  }

  /** The payload bits of a byte, under its marker. */
  function Above(b: byte, marker: int): int {
    b - marker
  }

  predicate IsScalar(n: int) {
    0 <= n < 0xD800 || 0xE000 <= n < 0x11_0000
  }

  /** The number read from the first bytes, and how many they are: no overlong forms, no
      surrogates. */
  function ReadScalar(bs: seq<byte>): (r: Option<(int, nat)>)
    requires bs != []
    ensures r.Some? ==> IsScalar(r.value.0) && 0 < r.value.1 <= |bs|
  {
    var b := bs[0];
    if b < 0x80 then Some((b, 1))
    else if 0xC0 <= b < 0xE0 && |bs| >= 2 && Continues(bs[1]) then
      Checked(Above(b, 0xC0) * 64 + Above(bs[1], 0x80), 0x80, 2)
    else if 0xE0 <= b < 0xF0 && |bs| >= 3 && Continues(bs[1]) && Continues(bs[2]) then
      Checked(Above(b, 0xE0) * 4096 + Above(bs[1], 0x80) * 64 + Above(bs[2], 0x80), 0x800, 3)
    else if 0xF0 <= b < 0xF8 && |bs| >= 4 && Continues(bs[1]) && Continues(bs[2]) && Continues(bs[3]) then
      Checked(Above(b, 0xF0) * 262144 + Above(bs[1], 0x80) * 4096 + Above(bs[2], 0x80) * 64 + Above(bs[3], 0x80),
              0x1_0000, 4)
    else None
  }

  function Checked(n: int, least: int, length: nat): Option<(int, nat)> {
    if least <= n && IsScalar(n) then Some((n, length)) else None
  }

  function Utf8Decode(bs: seq<byte>): Option<string>
    decreases |bs|
  {
    if bs == [] then Some("")
    else
      var first := ReadScalar(bs);
      if first.None? then None
      else
        var rest := Utf8Decode(bs[first.value.1..]);
        if rest.None? then None else Some([first.value.0 as char] + rest.value)
  }

  /** The base-64 digits of a number make it up again. */
  lemma Digits(n: nat)
    ensures n == n / 64 * 64 + n % 64
    ensures n / 64 == n / 4096 * 64 + n / 64 % 64
    ensures n / 4096 == n / 262144 * 64 + n / 4096 % 64
  {
  }

  lemma ReadTwo(n: int, bs: seq<byte>)
    requires 0x80 <= n < 0x800 && |bs| >= 2 && bs[0] == 0xC0 + n / 64 && bs[1] == 0x80 + n % 64
    ensures ReadScalar(bs) == Some((n, 2))
  {
  }

  lemma ReadThree(n: int, bs: seq<byte>)
    requires 0x800 <= n < 0x1_0000 && IsScalar(n) && |bs| >= 3
    requires bs[0] == 0xE0 + n / 4096 && bs[1] == 0x80 + n / 64 % 64 && bs[2] == 0x80 + n % 64
    ensures ReadScalar(bs) == Some((n, 3))
  {
    Digits(n);
  }

  lemma ReadFour(n: int, bs: seq<byte>)
    requires 0x1_0000 <= n < 0x11_0000 && |bs| >= 4 && bs[0] == 0xF0 + n / 262144
    requires bs[1] == 0x80 + n / 4096 % 64 && bs[2] == 0x80 + n / 64 % 64 && bs[3] == 0x80 + n % 64
    ensures ReadScalar(bs) == Some((n, 4))
  {
    Digits(n);
  }

  lemma ReadScalarUndoes(c: char, rest: seq<byte>)
    ensures ReadScalar(Utf8Char(c) + rest) == Some((c as int, |Utf8Char(c)|))
  {
    var n, bs := c as int, Utf8Char(c) + rest;
    assert forall i :: 0 <= i < |Utf8Char(c)| ==> bs[i] == Utf8Char(c)[i];
    if 0x80 <= n < 0x800 {
      ReadTwo(n, bs);
    } else if 0x800 <= n < 0x1_0000 {
      ReadThree(n, bs);
    } else if 0x1_0000 <= n {
      ReadFour(n, bs);
    }
  }

  lemma {:induction false} Utf8DecodeUndoes(s: string)
    ensures Utf8Decode(Utf8(s)) == Some(s)
  {
    if s != "" {
      ReadScalarUndoes(s[0], Utf8(s[1..]));
      Utf8DecodeUndoes(s[1..]);
      assert Utf8(s)[|Utf8Char(s[0])|..] == Utf8(s[1..]);
      assert [s[0]] + s[1..] == s;
    }
  }

  // ----- Percent-encoding -----

  /** Section 2.3 of RFC 3986. */
  predicate Unreserved(c: char) {
    'A' <= c <= 'Z' || 'a' <= c <= 'z' || '0' <= c <= '9' || c == '-' || c == '.' || c == '_' || c == '~'
  }

  /** What encodeURIComponent leaves alone beside the unreserved characters. */
  predicate Mark(c: char) {
    c == '!' || c == '\'' || c == '(' || c == ')' || c == '*'
  }

  function HexDigit(n: int): char
    requires 0 <= n < 16
  {
    "0123456789ABCDEF"[n]
  }

  function HexValue(c: char): (r: Option<int>)
    ensures r.Some? ==> 0 <= r.value < 16
  {
    if '0' <= c <= '9' then Some(c as int - '0' as int)
    else if 'A' <= c <= 'F' then Some(c as int - 'A' as int + 10)
    else if 'a' <= c <= 'f' then Some(c as int - 'a' as int + 10)
    else None
  }

  lemma HexValueUndoes(n: int)
    requires 0 <= n < 16
    ensures HexValue(HexDigit(n)) == Some(n) && Unreserved(HexDigit(n))
  {
  }

  function Percent(b: byte): string {
    ['%', HexDigit(b / 16), HexDigit(b % 16)]
  }

  function PercentAll(bs: seq<byte>): string {
    if bs == [] then "" else Percent(bs[0]) + PercentAll(bs[1..])
  }

  function EncodeURIComponent(s: string): string {
    if s == "" then ""
    else (if Unreserved(s[0]) || Mark(s[0]) then [s[0]] else PercentAll(Utf8Char(s[0]))) + EncodeURIComponent(s[1..])
  }

  /** The replacement of the marks by their percent form. */
  function ReplaceMarks(t: string): string {
    if t == "" then "" else ReplaceMark(t[0]) + ReplaceMarks(t[1..])
  }

  function ReplaceMark(c: char): string {
    if Mark(c) then Percent(c as int) else [c]
  }

  function EncodePathSegment(s: string): string {
    ReplaceMarks(EncodeURIComponent(s))
  }

  /** The encoder RFC 3986 describes: every byte that is not an unreserved character. */
  function PercentEncode(bs: seq<byte>): string {
    if bs == [] then "" else EncodeByte(bs[0]) + PercentEncode(bs[1..])
  }

  function EncodeByte(b: byte): string {
    if b < 0x80 && Unreserved(b as char) then [b as char] else Percent(b)
  }

  predicate IsUpperHex(c: char) {
    c in "0123456789ABCDEF"
  }

  /** A byte stands for itself if it is a letter, a digit or one of four marks, and else in
      two upper-case hexadecimal digits. */
  lemma EncodeByteAs(b: byte)
    ensures if 0x41 <= b <= 0x5A || 0x61 <= b <= 0x7A || 0x30 <= b <= 0x39
               || b == 0x2D || b == 0x2E || b == 0x5F || b == 0x7E then
              EncodeByte(b) == [b as char]
            else
              && |EncodeByte(b)| == 3 && EncodeByte(b)[0] == '%'
              && IsUpperHex(EncodeByte(b)[1]) && IsUpperHex(EncodeByte(b)[2])
  {
  }

  function PercentDecode(t: string): Option<seq<byte>>
    decreases |t|
  {
    if t == "" then Some([])
    else if t[0] == '%' then
      if |t| < 3 || HexValue(t[1]).None? || HexValue(t[2]).None? then None
      else
        var rest := PercentDecode(t[3..]);
        if rest.None? then None else Some([HexValue(t[1]).value * 16 + HexValue(t[2]).value] + rest.value)
    else if t[0] as int >= 0x80 then None
    else
      var rest := PercentDecode(t[1..]);
      if rest.None? then None else Some([t[0] as int] + rest.value)
  }

  function After(bs: seq<byte>, rest: Option<seq<byte>>): Option<seq<byte>> {
    if rest.None? then None else Some(bs + rest.value)
  }

  lemma DecodeRaw(c: char, rest: string)
    requires c != '%' && c as int < 0x80
    ensures PercentDecode([c] + rest) == After([c as int], PercentDecode(rest))
  {
    assert ([c] + rest)[1..] == rest;
  }

  lemma DecodeEscape(t: string, b: byte, rest: string)
    requires |t| >= 3 && t[0] == '%' && t[3..] == rest
    requires HexValue(t[1]) == Some(b / 16) && HexValue(t[2]) == Some(b % 16)
    ensures PercentDecode(t) == After([b], PercentDecode(rest))
  {
    assert b / 16 * 16 + b % 16 == b;
  }

  lemma PercentSplits(b: byte, rest: string)
    ensures var t := Percent(b) + rest;
      |t| >= 3 && t[0] == '%' && t[1] == HexDigit(b / 16) && t[2] == HexDigit(b % 16) && t[3..] == rest
  {
  }

  lemma DecodePercent(b: byte, rest: string)
    ensures PercentDecode(Percent(b) + rest) == After([b], PercentDecode(rest))
  {
    PercentSplits(b, rest);
    HexValueUndoes(b / 16);
    HexValueUndoes(b % 16);
    DecodeEscape(Percent(b) + rest, b, rest);
  }

  lemma {:induction false} PercentDecodeUndoes(bs: seq<byte>)
    ensures PercentDecode(PercentEncode(bs)) == Some(bs)
  {
    if bs != [] {
      var b, rest := bs[0], PercentEncode(bs[1..]);
      PercentDecodeUndoes(bs[1..]);
      if b < 0x80 && Unreserved(b as char) {
        DecodeRaw(b as char, rest);
      } else {
        DecodePercent(b, rest);
      }
      assert [b] + bs[1..] == bs;
    }
  }

  lemma {:induction false} ReplaceMarksOfConcat(a: string, b: string)
    ensures ReplaceMarks(a + b) == ReplaceMarks(a) + ReplaceMarks(b)
    decreases |a|
  {
    if a == "" {
      assert a + b == b;
    } else {
      ReplaceMarksOfConcat(a[1..], b);
      assert (a + b)[1..] == a[1..] + b && (a + b)[0] == a[0];
      assert ReplaceMarks(a + b) == ReplaceMark(a[0]) + ReplaceMarks(a[1..] + b);
    }
  }

  lemma {:induction false} PercentEncodeOfConcat(a: seq<byte>, b: seq<byte>)
    ensures PercentEncode(a + b) == PercentEncode(a) + PercentEncode(b)
    decreases |a|
  {
    if a == [] {
      assert a + b == b;
    } else {
      PercentEncodeOfConcat(a[1..], b);
      assert (a + b)[1..] == a[1..] + b && (a + b)[0] == a[0];
      assert PercentEncode(a + b) == EncodeByte(a[0]) + PercentEncode(a[1..] + b);
    }
  }

  lemma {:induction false} PercentAllHasNoMarks(bs: seq<byte>)
    ensures ReplaceMarks(PercentAll(bs)) == PercentAll(bs)
  {
    if bs != [] {
      PercentAllHasNoMarks(bs[1..]);
      ReplaceMarksOfConcat(Percent(bs[0]), PercentAll(bs[1..]));
      PercentHasNoMarks(bs[0]);
    }
  }

  lemma PercentHasNoMarks(b: byte)
    ensures ReplaceMarks(Percent(b)) == Percent(b)
  {
    var t := Percent(b);
    HexValueUndoes(b / 16);
    HexValueUndoes(b % 16);
    assert t[1..] == [t[1], t[2]] && t[1..][1..] == [t[2]];
    assert ReplaceMarks([t[2]]) == [t[2]];
    assert ReplaceMarks(t[1..]) == [t[1], t[2]];
  }

  lemma {:induction false} PercentAllIsEncode(bs: seq<byte>)
    requires forall i :: 0 <= i < |bs| ==> bs[i] >= 0x80
    ensures PercentEncode(bs) == PercentAll(bs)
  {
    if bs != [] {
      PercentAllIsEncode(bs[1..]);
    }
  }

  lemma EncodeCharIsBytewise(c: char)
    ensures ReplaceMarks(if Unreserved(c) || Mark(c) then [c] else PercentAll(Utf8Char(c)))
         == PercentEncode(Utf8Char(c))
  {
    var n := c as int;
    if n < 0x80 {
      assert Utf8Char(c) == [n] && Utf8Char(c)[1..] == [];
      assert PercentEncode([n]) == EncodeByte(n);
      if !Unreserved(c) && !Mark(c) {
        PercentAllHasNoMarks([n]);
        assert PercentAll([n]) == Percent(n);
      }
    } else {
      PercentAllHasNoMarks(Utf8Char(c));
      PercentAllIsEncode(Utf8Char(c));
    }
  }

  /** encodeURIComponent followed by the replacement is RFC 3986 percent-encoding of the
      UTF-8 bytes. */
  lemma {:induction false} EncodePathSegmentIsPercentEncoding(s: string)
    ensures EncodePathSegment(s) == PercentEncode(Utf8(s))
  {
    if s != "" {
      var head := if Unreserved(s[0]) || Mark(s[0]) then [s[0]] else PercentAll(Utf8Char(s[0]));
      ReplaceMarksOfConcat(head, EncodeURIComponent(s[1..]));
      EncodeCharIsBytewise(s[0]);
      PercentEncodeOfConcat(Utf8Char(s[0]), Utf8(s[1..]));
      EncodePathSegmentIsPercentEncoding(s[1..]);
    }
  }

  function DecodePathSegment(t: string): Option<string> {
    var bs := PercentDecode(t);
    if bs.None? then None else Utf8Decode(bs.value)
  }

  lemma DecodePathSegmentUndoes(s: string)
    ensures DecodePathSegment(EncodePathSegment(s)) == Some(s)
  {
    EncodePathSegmentIsPercentEncoding(s);
    PercentDecodeUndoes(Utf8(s));
    Utf8DecodeUndoes(s);
  }

  lemma {:induction false} EncodedHasNoSlash(bs: seq<byte>)
    ensures '/' !in PercentEncode(bs)
  {
    if bs != [] {
      EncodedHasNoSlash(bs[1..]);
      HexValueUndoes(bs[0] / 16);
      HexValueUndoes(bs[0] % 16);
      assert '/' !in EncodeByte(bs[0]);
    }
  }

  /** The encoded segment is empty or a dot segment exactly when the segment is. */
  lemma DotSegmentsStay(s: string, dots: string)
    requires dots == "" || dots == "." || dots == ".."
    ensures EncodePathSegment(s) == dots <==> s == dots
  {
    assert EncodePathSegment(dots) == dots by {
      assert EncodeURIComponent(".") == "." && EncodeURIComponent("..") == "..";
      assert ReplaceMarks(".") == "." && ReplaceMarks("..") == "..";
    }
    DecodePathSegmentUndoes(s);
    DecodePathSegmentUndoes(dots);
  }

  // ----- Object keys -----

  /** split('/'): always at least one segment. */
  function Split(s: string): (r: seq<string>)
    ensures |r| >= 1 && forall i :: 0 <= i < |r| ==> '/' !in r[i]
  {
    if s == "" then [""]
    else if s[0] == '/' then [""] + Split(s[1..])
    else
      var r := Split(s[1..]);
      [[s[0]] + r[0]] + r[1..]
  }

  /** join('/'). */
  function Join(segments: seq<string>): string {
    if |segments| == 0 then ""
    else if |segments| == 1 then segments[0]
    else segments[0] + "/" + Join(segments[1..])
  }

  lemma {:induction false} JoinUndoesSplit(s: string)
    ensures Join(Split(s)) == s
  {
    if s != "" {
      JoinUndoesSplit(s[1..]);
      var r := Split(s[1..]);
      if s[0] == '/' {
        assert Split(s)[1..] == r;
        assert Join(Split(s)) == "" + "/" + Join(r);
      } else {
        assert Split(s)[1..] == r[1..];
      }
      assert s == [s[0]] + s[1..];
    }
  }

  lemma {:induction false} SplitOneSegment(a: string)
    requires '/' !in a
    ensures Split(a) == [a]
  {
    if a != "" {
      SplitOneSegment(a[1..]);
      assert [a[0]] + a[1..] == a;
    }
  }

  lemma {:induction false} SplitAfterSegment(a: string, rest: string)
    requires '/' !in a
    ensures Split(a + "/" + rest) == [a] + Split(rest)
    decreases |a|
  {
    var s := a + "/" + rest;
    if a == "" {
      assert s[1..] == rest;
    } else {
      SplitAfterSegment(a[1..], rest);
      assert s[1..] == a[1..] + "/" + rest;
      assert s[0] == a[0] && [a[0]] + a[1..] == a;
    }
  }

  lemma {:induction false} SplitUndoesJoin(segments: seq<string>)
    requires segments != [] && forall i :: 0 <= i < |segments| ==> '/' !in segments[i]
    ensures Split(Join(segments)) == segments
    decreases |segments|
  {
    if |segments| == 1 {
      SplitOneSegment(segments[0]);
    } else {
      SplitUndoesJoin(segments[1..]);
      SplitAfterSegment(segments[0], Join(segments[1..]));
    }
  }

  function EncodeAll(segments: seq<string>): (r: seq<string>)
    ensures |r| == |segments| && forall i :: 0 <= i < |r| ==> r[i] == EncodePathSegment(segments[i])
  {
    seq(|segments|, i requires 0 <= i < |segments| => EncodePathSegment(segments[i]))
  }

  function EncodeObjectKey(key: string): string {
    Join(EncodeAll(Split(key)))
  }

  lemma EncodeAllHasNoSlash(segments: seq<string>)
    ensures forall i :: 0 <= i < |segments| ==> '/' !in EncodeAll(segments)[i]
  {
    forall i | 0 <= i < |segments| ensures '/' !in EncodeAll(segments)[i] {
      EncodePathSegmentIsPercentEncoding(segments[i]);
      EncodedHasNoSlash(Utf8(segments[i]));
    }
  }

  /** The encoded key has the segments of the key, each encoded, in place. */
  lemma {:induction false} SegmentsKept(key: string)
    ensures Split(EncodeObjectKey(key)) == EncodeAll(Split(key))
  {
    EncodeAllHasNoSlash(Split(key));
    SplitUndoesJoin(EncodeAll(Split(key)));
  }

  function DecodeAll(segments: seq<string>): Option<seq<string>> {
    if segments == [] then Some([])
    else
      var first, rest := DecodePathSegment(segments[0]), DecodeAll(segments[1..]);
      if first.None? || rest.None? then None else Some([first.value] + rest.value)
  }

  function DecodeObjectKey(t: string): Option<string> {
    var segments := DecodeAll(Split(t));
    if segments.None? then None else Some(Join(segments.value))
  }

  lemma {:induction false} DecodeAllUndoes(segments: seq<string>)
    ensures DecodeAll(EncodeAll(segments)) == Some(segments)
  {
    if segments != [] {
      DecodePathSegmentUndoes(segments[0]);
      DecodeAllUndoes(segments[1..]);
      assert EncodeAll(segments)[1..] == EncodeAll(segments[1..]);
      assert [segments[0]] + segments[1..] == segments;
    }
  }

  lemma DecodeObjectKeyUndoes(key: string)
    ensures DecodeObjectKey(EncodeObjectKey(key)) == Some(key)
  {
    SegmentsKept(key);
    DecodeAllUndoes(Split(key));
    JoinUndoesSplit(key);
  }

  // ----- Tenant-scoped paths -----

  predicate BadSegment(s: string) {
    s == "" || s == "." || s == ".."
  }

  /** The part of `s` from `i` to `j` is `segment`, between slashes or the ends. */
  predicate SegmentAt(s: string, segment: string, i: int, j: int) {
    && 0 <= i <= j <= |s| && s[i..j] == segment
    && (i == 0 || s[i - 1] == '/') && (j == |s| || s[j] == '/')
  }

  ghost predicate HasSegment(s: string, segment: string) {
    exists i: int, j: int :: SegmentAt(s, segment, i, j)
  }

  ghost predicate SlashFree(s: string) {
    forall k :: 0 <= k < |s| ==> s[k] != '/'
  }

  lemma SegmentsAfterSlash(s: string, segment: string, n: nat, i: int, j: int)
    requires n < |s| && s[n] == '/' && SlashFree(s[..n]) && SlashFree(segment)
    ensures SegmentAt(s, segment, i, j) <==>
              SegmentAt(s[n + 1..], segment, i - n - 1, j - n - 1) || (i == 0 && j == n && segment == s[..n])
  {
    var rest := s[n + 1..];
    assert forall k :: 0 <= k < n ==> s[k] == s[..n][k];
    if 0 <= i <= j <= |s| {
      if i > n {
        assert rest[i - n - 1..j - n - 1] == s[i..j];
      }
      assert forall k :: i <= k < j ==> s[k] == s[i..j][k - i];
    }
  }

  /** split('/') gives exactly the parts between slashes and ends. */
  lemma {:induction false} SplitGivesSegments(s: string, segment: string)
    requires '/' !in segment
    ensures segment in Split(s) <==> HasSegment(s, segment)
    decreases |s|
  {
    var n := UpToSlash(s);
    if n == |s| {
      assert s[..n] == s;
      SplitOneSegment(s);
      WholeSegment(s, segment);
    } else {
      var rest := s[n + 1..];
      assert s == s[..n] + "/" + rest;
      SplitAfterSegment(s[..n], rest);
      SplitGivesSegments(rest, segment);
      forall i: int, j: int
        ensures SegmentAt(s, segment, i, j) <==>
                  SegmentAt(rest, segment, i - n - 1, j - n - 1) || (i == 0 && j == n && segment == s[..n])
      {
        SegmentsAfterSlash(s, segment, n, i, j);
      }
      if i: int, j: int :| SegmentAt(rest, segment, i, j) {
        assert SegmentAt(s, segment, i + n + 1, j + n + 1);
      }
      assert segment == s[..n] ==> SegmentAt(s, segment, 0, n);
    }
  }

  lemma WholeSegment(s: string, segment: string)
    requires '/' !in s
    ensures HasSegment(s, segment) <==> segment == s
  {
    assert SlashFree(s);
    assert s[0..|s|] == s;
    if segment == s {
      assert SegmentAt(s, segment, 0, |s|);
    }
  }

  function TenantPrefix(tenant: string): string {
    "tenant/" + Trim(tenant) + "/"
  }

  predicate Accepted(tenant: string, path: string) {
    var p := Trim(path);
    && Trim(tenant) != ""
    && TenantPrefix(tenant) <= p
    && !("/" <= p)
    && '\\' !in p
    && forall i :: 0 <= i < |Split(p)| ==> !BadSegment(Split(p)[i])
  }

  /** A path is accepted exactly when, trimmed, it lies under the tenant's own directory, has no
      backslash, and no part of it between slashes is empty, one dot or two dots. */
  lemma AcceptedIff(tenant: string, path: string)
    ensures Accepted(tenant, path) <==>
              && Trim(tenant) != "" && "tenant/" + Trim(tenant) + "/" <= Trim(path) && '\\' !in Trim(path)
              && !HasSegment(Trim(path), "") && !HasSegment(Trim(path), ".") && !HasSegment(Trim(path), "..")
  {
    var p := Trim(path);
    SplitGivesSegments(p, "");
    SplitGivesSegments(p, ".");
    SplitGivesSegments(p, "..");
    assert (forall i :: 0 <= i < |Split(p)| ==> !BadSegment(Split(p)[i])) <==>
             "" !in Split(p) && "." !in Split(p) && ".." !in Split(p);
    assert "/" <= p ==> SegmentAt(p, "", 0, 0);
  }

  /** One id is an ancestor directory of the other. */
  predicate Nested(a: string, b: string) {
    a + "/" <= b || b + "/" <= a
  }

  lemma PrefixesAgree(a: string, b: string, p: string)
    requires a + "/" <= p && b + "/" <= p && |a| <= |b|
    ensures a == b || a + "/" <= b
  {
    assert p[..|a|] == a && p[..|b|] == b && p[|a|] == '/';
    if |a| < |b| {
      assert b[..|a| + 1] == p[..|a| + 1] == a + "/";
    }
  }

  lemma OnlyNestedIdsShare(t: string, u: string, path: string)
    requires Accepted(t, path) && Accepted(u, path)
    ensures Trim(t) == Trim(u) || Nested(Trim(t), Trim(u))
  {
    var p, a, b := Trim(path), Trim(t), Trim(u);
    assert p[7..][..|a| + 1] == TenantPrefix(t)[7..] == a + "/";
    assert p[7..][..|b| + 1] == TenantPrefix(u)[7..] == b + "/";
    if |a| <= |b| {
      PrefixesAgree(a, b, p[7..]);
    } else {
      PrefixesAgree(b, a, p[7..]);
    }
  }

  /** A file of the tenant's own: accepted exactly when the id itself is usable. */
  function OwnFile(tenant: string): string {
    TenantPrefix(tenant) + "f"
  }

  lemma TrimKeeps(s: string)
    requires s != "" && !IsSpace(s[0]) && !IsSpace(s[|s| - 1])
    ensures Trim(s) == s
  {
  }

  /** Two usable tenant ids share an accepted path exactly when they are the same or one is
      an ancestor directory of the other. */
  lemma SharedPathIff(t: string, u: string)
    requires Accepted(t, OwnFile(t)) && Accepted(u, OwnFile(u))
    ensures (exists path :: Accepted(t, path) && Accepted(u, path)) <==> Trim(t) == Trim(u) || Nested(Trim(t), Trim(u))
  {
    if path :| Accepted(t, path) && Accepted(u, path) {
      OnlyNestedIdsShare(t, u, path);
    }
    var a, b := Trim(t), Trim(u);
    if a == b || a + "/" <= b {
      DescendantFileAccepted(t, u);
    } else if b + "/" <= a {
      DescendantFileAccepted(u, t);
    }
  }

  lemma DescendantFileAccepted(t: string, u: string)
    requires Accepted(u, OwnFile(u)) && Trim(t) != "" && (Trim(t) == Trim(u) || Trim(t) + "/" <= Trim(u))
    ensures Accepted(t, OwnFile(u))
  {
    var a, b, p := Trim(t), Trim(u), OwnFile(u);
    TrimKeeps(p);
    if a + "/" <= b {
      assert b == a + "/" + b[|a| + 1..];
      assert p == "tenant/" + (a + "/" + b[|a| + 1..]) + "/" + "f";
      assert p == TenantPrefix(t) + (b[|a| + 1..] + "/" + "f");
    }
  }

  /** No other tenant whose id has no slash can use a path accepted for a tenant whose id
      has none. */
  lemma SlashFreeIdsDoNotShare(t: string, u: string, path: string)
    requires Accepted(t, path) && Accepted(u, path) && '/' !in Trim(t) && '/' !in Trim(u)
    ensures Trim(t) == Trim(u)
  {
    OnlyNestedIdsShare(t, u, path);
    SlashInside(Trim(t), Trim(u));
    SlashInside(Trim(u), Trim(t));
  }

  lemma SlashInside(a: string, b: string)
    ensures a + "/" <= b ==> '/' in b
  {
    if a + "/" <= b {
      assert b[|a|] == '/';
    }
  }

  // ----- The URL path -----

  function ObjectPath(bucket: string, path: string): string {
    "/" + EncodePathSegment(bucket) + "/" + EncodeObjectKey(Trim(path))
  }

  /** Files of two tenants with slash-free ids never share a URL path, and a URL path names
      one stored file. */
  lemma ObjectPathsSeparateTenants(bucket: string, t: string, p: string, u: string, q: string)
    requires Accepted(t, p) && Accepted(u, q) && ObjectPath(bucket, p) == ObjectPath(bucket, q)
    ensures Trim(p) == Trim(q)
    ensures '/' !in Trim(t) && '/' !in Trim(u) ==> Trim(t) == Trim(u)
  {
    var head := "/" + EncodePathSegment(bucket) + "/";
    assert ObjectPath(bucket, p)[|head|..] == EncodeObjectKey(Trim(p));
    assert ObjectPath(bucket, q)[|head|..] == EncodeObjectKey(Trim(q));
    DecodeObjectKeyUndoes(Trim(p));
    DecodeObjectKeyUndoes(Trim(q));
    if '/' !in Trim(t) && '/' !in Trim(u) {
      SlashFreeIdsDoNotShare(t, u, p);
    }
  }

  /** remove_dot_segments of section 5.2.4 of RFC 3986: the next input and output. */
  function DotStep(input: string, output: string): (r: (string, string))
    requires input != ""
    ensures |r.0| < |input|
  {
    if "../" <= input then (input[3..], output)
    else if "./" <= input then (input[2..], output)
    else if "/./" <= input then (input[2..], output)
    else if input == "/." then ("/", output)
    else if "/../" <= input then (input[3..], DropLast(output))
    else if input == "/.." then ("/", DropLast(output))
    else if input == "." || input == ".." then ("", output)
    else
      var n := 1 + UpToSlash(input[1..]);
      (input[n..], output + input[..n])
  }

  function RemoveDotSegments(input: string, output: string): string
    decreases |input|
  {
    if input == "" then output
    else
      var next := DotStep(input, output);
      RemoveDotSegments(next.0, next.1)
  }

  function UpToSlash(s: string): (n: nat)
    ensures n <= |s| && '/' !in s[..n] && (n < |s| ==> s[n] == '/')
  {
    if s == "" || s[0] == '/' then 0 else 1 + UpToSlash(s[1..])
  }

  /** The output without its last segment and the slash before it. */
  function DropLast(output: string): string {
    if output == "" then ""
    else if output[|output| - 1] == '/' then output[..|output| - 1]
    else DropLast(output[..|output| - 1])
  }

  /** "/a/b/c" for the segments a, b, c. */
  function Absolute(segments: seq<string>): string {
    if segments == [] then "" else "/" + segments[0] + Absolute(segments[1..])
  }

  lemma {:induction false} AbsoluteIsJoin(segments: seq<string>)
    requires segments != []
    ensures Absolute(segments) == "/" + Join(segments)
    decreases |segments|
  {
    if |segments| > 1 {
      AbsoluteIsJoin(segments[1..]);
    } else {
      assert segments[1..] == [];
    }
  }

  ghost predicate Plain(segments: seq<string>) {
    forall i :: 0 <= i < |segments| ==> '/' !in segments[i] && segments[i] != "." && segments[i] != ".."
  }

  lemma {:induction false} UpToSlashStops(a: string, rest: string)
    requires '/' !in a && (rest == "" || rest[0] == '/')
    ensures UpToSlash(a + rest) == |a|
  {
    if a == "" {
      assert a + rest == rest;
    } else {
      UpToSlashStops(a[1..], rest);
      assert (a + rest)[1..] == a[1..] + rest && (a + rest)[0] == a[0];
    }
  }

  lemma DotPrefixes(input: string)
    ensures "/./" <= input ==> |input| >= 3 && input[1] == '.' && input[2] == '/'
    ensures "/../" <= input ==> |input| >= 4 && input[1] == '.' && input[2] == '.' && input[3] == '/'
  {
  }

  lemma NoDotCase(a: string, rest: string)
    requires '/' !in a && a != "." && a != ".." && (rest == "" || rest[0] == '/')
    ensures var input := "/" + a + rest;
      !("/./" <= input) && input != "/." && !("/../" <= input) && input != "/.."
  {
    var input := "/" + a + rest;
    assert forall i :: 0 <= i < |a| ==> input[1 + i] == a[i] && a[i] != '/';
    assert rest != "" ==> input[1 + |a|] == '/';
    assert |a| == 1 ==> a == [a[0]];
    assert |a| == 2 ==> a == [a[0], a[1]];
    DotPrefixes(input);
  }

  /** A segment of one dot goes, and one of two dots takes the segment before it along. */
  lemma DotSegmentsGo(rest: string, output: string, a: string)
    requires (rest == "" || rest[0] == '/') && '/' !in a
    ensures DotStep("/." + rest, output) == (if rest == "" then "/" else rest, output)
    ensures DotStep("/.." + rest, output + "/" + a) == (if rest == "" then "/" else rest, output)
  {
    DropLastDrops(output, a);
    var one, two := "/." + rest, "/.." + rest;
    assert one[0] == two[0] == '/' && one[1] == two[1] == '.' && two[2] == '.';
    if rest == "" {
      assert one == "/." && two == "/..";
    } else {
      assert one == "/./" + rest[1..] && two == "/../" + rest[1..];
      assert one[2..] == rest && two[3..] == rest;
    }
  }

  /** Dot segments at the start of a relative path go too. */
  lemma LeadingDotsGo(rest: string, output: string)
    ensures DotStep("../" + rest, output) == DotStep("./" + rest, output) == (rest, output)
    ensures DotStep(".", output) == DotStep("..", output) == ("", output)
  {
    assert ("../" + rest)[3..] == rest && ("./" + rest)[2..] == rest;
    assert ("./" + rest)[1] == '/' && "."[0] == ".."[0] == '.';
  }

  lemma {:induction false} DropLastDrops(output: string, a: string)
    requires '/' !in a
    ensures DropLast(output + "/" + a) == output
    decreases |a|
  {
    var t := output + "/" + a;
    if a == "" {
      assert t[..|t| - 1] == output;
    } else {
      DropLastDrops(output, a[..|a| - 1]);
      assert t[|t| - 1] == a[|a| - 1] && t[..|t| - 1] == output + "/" + a[..|a| - 1];
    }
  }

  lemma PlainDotStep(input: string, output: string)
    requires input != "" && input[0] == '/'
    requires !("/./" <= input) && input != "/." && !("/../" <= input) && input != "/.."
    ensures var n := 1 + UpToSlash(input[1..]); DotStep(input, output) == (input[n..], output + input[..n])
  {
  }

  lemma FirstSegmentMoves(a: string, rest: string, output: string)
    requires '/' !in a && a != "." && a != ".." && (rest == "" || rest[0] == '/')
    ensures DotStep("/" + a + rest, output) == (rest, output + "/" + a)
  {
    NoDotCase(a, rest);
    UpToSlashStops(a, rest);
    SegmentSplits(a, rest);
    PlainDotStep("/" + a + rest, output);
    assert output + ("/" + a) == output + "/" + a;
  }

  lemma SegmentSplits(a: string, rest: string)
    ensures var input := "/" + a + rest;
      && input[0] == '/' && input[1..] == a + rest
      && input[1 + |a|..] == rest && input[..1 + |a|] == "/" + a
  {
  }

  lemma OneStep(input: string, output: string, rest: string, more: string)
    requires input != "" && DotStep(input, output) == (rest, more)
    ensures RemoveDotSegments(input, output) == RemoveDotSegments(rest, more)
  {
  }

  lemma PlainStep(segments: seq<string>, output: string)
    requires segments != [] && Plain(segments)
    ensures RemoveDotSegments(Absolute(segments), output)
         == RemoveDotSegments(Absolute(segments[1..]), output + "/" + segments[0])
  {
    FirstSegmentMoves(segments[0], Absolute(segments[1..]), output);
    OneStep(Absolute(segments), output, Absolute(segments[1..]), output + "/" + segments[0]);
  }

  lemma AbsoluteAppends(segments: seq<string>, output: string)
    requires segments != []
    ensures output + "/" + segments[0] + Absolute(segments[1..]) == output + Absolute(segments)
  {
  }

  lemma {:induction false} PlainPathsAreNormal(segments: seq<string>, output: string)
    requires Plain(segments)
    ensures RemoveDotSegments(Absolute(segments), output) == output + Absolute(segments)
    decreases |segments|
  {
    if segments == [] {
      assert output + "" == output;
    } else {
      PlainStep(segments, output);
      PlainPathsAreNormal(segments[1..], output + "/" + segments[0]);
      AbsoluteAppends(segments, output);
    }
  }

  lemma EncodedSegmentIsPlain(s: string)
    requires s != "." && s != ".."
    ensures Plain([EncodePathSegment(s)])
  {
    EncodePathSegmentIsPercentEncoding(s);
    EncodedHasNoSlash(Utf8(s));
    DotSegmentsStay(s, ".");
    DotSegmentsStay(s, "..");
  }

  lemma EncodedSegmentsArePlain(segments: seq<string>)
    requires forall i :: 0 <= i < |segments| ==> segments[i] != "." && segments[i] != ".."
    ensures Plain(EncodeAll(segments))
  {
    forall i | 0 <= i < |segments| ensures Plain([EncodeAll(segments)[i]]) {
      EncodedSegmentIsPlain(segments[i]);
    }
    forall i | 0 <= i < |segments|
      ensures '/' !in EncodeAll(segments)[i] && EncodeAll(segments)[i] != "." && EncodeAll(segments)[i] != ".."
    {
      assert Plain([EncodeAll(segments)[i]]);
      assert [EncodeAll(segments)[i]][0] == EncodeAll(segments)[i];
    }
  }

  /** A URL path made from an accepted storage path is already normal: removing dot
      segments changes nothing, so a server that normalises it still sees this key. */
  lemma AcceptedPathsAreNormal(bucket: string, tenant: string, path: string)
    requires Accepted(tenant, path) && bucket != "." && bucket != ".."
    ensures RemoveDotSegments(ObjectPath(bucket, path), "") == ObjectPath(bucket, path)
  {
    var key := Trim(path);
    var segments := [bucket] + Split(key);
    EncodedSegmentsArePlain(segments);
    PlainPathsAreNormal(EncodeAll(segments), "");
    ObjectPathIsAbsolute(bucket, key);
  }

  lemma ObjectPathIsAbsolute(bucket: string, key: string)
    ensures Absolute(EncodeAll([bucket] + Split(key))) == "/" + EncodePathSegment(bucket) + "/" + EncodeObjectKey(key)
  {
    var segments := EncodeAll([bucket] + Split(key));
    assert segments[0] == EncodePathSegment(bucket);
    assert segments[1..] == EncodeAll(Split(key));
    AbsoluteIsJoin(segments[1..]);
  }
}
