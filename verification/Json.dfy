/** The part of Go's `encoding/json` and `fmt` the repository uses: decoding a
    text into `map[string]interface{}`, marshalling such a map, and `%v`.

    Decoding is followed on texts of flat objects (RFC 8259, sections 4, 6 and 7):
    strings, integers that float64 holds exactly, booleans and null.  A member that is
    itself an object, and any other value, is an opaque case carrying its texts. */
module Json {
  import opened Text

  datatype Value =
    | Null
    | Bool(b: bool)
    | Int(n: int)
    | Str(s: string)
    | Nested(json: string)                  // an object inside the object, by its JSON text
    | Other(printed: string, json: string)  // an array or another number, by its `%v` and JSON texts

  type Object = map<string, Value>

  /** Every integer up to this magnitude is a float64. */
  const MAX_EXACT := 0x20_0000_0000_0000

  predicate Exact(n: int) { -MAX_EXACT <= n <= MAX_EXACT }

  predicate FlatValue(v: Value) {
    match v
    case Null | Bool(_) | Str(_) => true
    case Int(n) => Exact(n)
    case Nested(_) | Other(_, _) => false
  }

  predicate Flat(m: Object) { forall k :: k in m ==> FlatValue(m[k]) }

  // ----- `%v`

  function StripZeros(s: string): (r: string)
    ensures |r| <= |s| && r == s[..|r|]
  {
    if s != "" && s[|s| - 1] == '0' then StripZeros(s[..|s| - 1]) else s
  }

  /** `%v` of a float64 holding the integer n (see Exact): the shortest `%g`, which turns to
      exponent form at seven digits. */
  function SprintInt(n: int): string {
    if -1_000_000 < n < 1_000_000 then Decimal(n)
    else
      var digits := Digits(if n < 0 then -n else n);
      var significant := StripZeros(digits[1..]);
      var exponent := |digits| - 1;
      (if n < 0 then "-" else "") + digits[..1]
      + (if significant == "" then "" else "." + significant)
      + "e+" + (if exponent < 10 then "0" else "") + Digits(exponent)
  }

  /** `fmt.Sprintf("%v", value)`; a nested object is never printed by its caller. */
  function Sprint(v: Value): string {
    match v
    case Null => "<nil>"
    case Bool(b) => if b then "true" else "false"
    case Int(n) => SprintInt(n)
    case Str(s) => s
    case Nested(_) => ""
    case Other(printed, _) => printed
  }

  // ----- reading

  /** Beyond: the text uses values this model does not read. */
  datatype Read<+T> = Got(value: T, rest: string) | Bad | Beyond

  predicate IsWs(c: char) { c == ' ' || c == '\t' || c == '\n' || c == '\r' }

  predicate AllWs(s: string) { forall i :: 0 <= i < |s| ==> IsWs(s[i]) }

  function SkipWs(s: string): (r: string)
    ensures |r| <= |s|
  {
    if s != "" && IsWs(s[0]) then SkipWs(s[1..]) else s
  }

  predicate IsHex(c: char) { IsDigit(c) || 'a' <= c <= 'f' || 'A' <= c <= 'F' }

  function HexValue(c: char): (d: nat)
    requires IsHex(c)
    ensures d < 16
  {
    if IsDigit(c) then DigitValue(c)
    else if 'a' <= c <= 'f' then (c as int) - 87
    else (c as int) - 55
  }

  function HexChar(d: nat): (c: char)
    requires d < 16
    ensures IsHex(c) && HexValue(c) == d
  {
    if d < 10 then DigitChar(d) else (87 + d) as char
  }

  /** Four hexadecimal digits at the front of s. */
  predicate HasHex4(s: string) {
    |s| >= 4 && IsHex(s[0]) && IsHex(s[1]) && IsHex(s[2]) && IsHex(s[3])
  }

  function Hex4(s: string): (u: nat)
    requires HasHex4(s)
    ensures u < 0x1_0000
  {
    0x1000 * HexValue(s[0]) + 0x100 * HexValue(s[1]) + 0x10 * HexValue(s[2]) + HexValue(s[3])
  }

  const REPLACEMENT: char := '\U{FFFD}'

  /** A `\u` escape: a surrogate pair is one character, a lone surrogate is replaced. */
  function ReadUnicode(s: string): (r: Read<char>)
    ensures r.Got? ==> |r.rest| < |s|
  {
    if !HasHex4(s) then Bad
    else
      var u := Hex4(s);
      if u < 0xD800 || 0xE000 <= u then Got(u as char, s[4..])
      else if u < 0xDC00 && "\\u" <= s[4..] && HasHex4(s[6..]) && 0xDC00 <= Hex4(s[6..]) < 0xE000 then
        Got((0x1_0000 + (u - 0xD800) * 0x400 + (Hex4(s[6..]) - 0xDC00)) as char, s[10..])
      else Got(REPLACEMENT, s[4..])
  }

  /** What follows a backslash. */
  function ReadEscape(s: string): (r: Read<char>)
    ensures r.Got? ==> |r.rest| < |s|
  {
    if s == "" then Bad
    else
      match s[0]
      case '"' => Got('"', s[1..])
      case '\\' => Got('\\', s[1..])
      case '/' => Got('/', s[1..])
      case 'b' => Got('\U{0008}', s[1..])
      case 'f' => Got('\U{000C}', s[1..])
      case 'n' => Got('\n', s[1..])
      case 'r' => Got('\r', s[1..])
      case 't' => Got('\t', s[1..])
      case 'u' => ReadUnicode(s[1..])
      case _ => Bad
  }

  /** A string's characters, from just after the opening quote past the closing one. */
  function ReadChars(s: string): (r: Read<string>)
    ensures r.Got? ==> |r.rest| < |s|
    decreases |s|
  {
    if s == "" || s[0] < ' ' then Bad
    else if s[0] == '"' then Got("", s[1..])
    else
      var first := if s[0] == '\\' then ReadEscape(s[1..]) else Got(s[0], s[1..]);
      if !first.Got? then Bad
      else
        match ReadChars(first.rest)
        case Got(more, rest) => Got([first.value] + more, rest)
        case Bad => Bad
        case Beyond => Beyond
  }

  /** Length of the run of digits at the front of s. */
  function DigitRun(s: string): (n: nat)
    ensures n <= |s| && AllDigits(s[..n])
    ensures n < |s| ==> !IsDigit(s[n])
  {
    if s != "" && IsDigit(s[0]) then
      var n := 1 + DigitRun(s[1..]);
      assert s[..n] == [s[0]] + s[1..][..n - 1];
      n
    else 0
  }

  predicate FractionOrExponent(c: char) { c == '.' || c == 'e' || c == 'E' }

  /** A number's digits, its sign already read. */
  function ReadMagnitude(s: string, negative: bool): (r: Read<Value>)
    ensures r.Got? ==> |r.rest| < |s|
  {
    var run := DigitRun(s);
    if run == 0 then Bad
    else
      var used := if s[0] == '0' then 1 else run;
      var magnitude := NatValue(s[..used]);
      var rest := s[used..];
      if rest != "" && FractionOrExponent(rest[0]) then Beyond
      else if magnitude > MAX_EXACT || (negative && magnitude == 0) then Beyond
      else Got(Int(if negative then 0 - magnitude else magnitude), rest)
  }

  function ReadNumber(s: string): (r: Read<Value>)
    ensures r.Got? ==> |r.rest| < |s|
  {
    if s != "" && s[0] == '-' then ReadMagnitude(s[1..], true) else ReadMagnitude(s, false)
  }

  function ReadValue(s: string): (r: Read<Value>)
    ensures r.Got? ==> |r.rest| < |s|
  {
    if s == "" then Bad
    else if s[0] == '"' then
      match ReadChars(s[1..])
      case Got(text, rest) => Got(Str(text), rest)
      case Bad => Bad
      case Beyond => Beyond
    else if s[0] == '-' || IsDigit(s[0]) then ReadNumber(s)
    else if "true" <= s then Got(Bool(true), s[4..])
    else if "false" <= s then Got(Bool(false), s[5..])
    else if "null" <= s then Got(Null, s[4..])
    else if s[0] == '{' || s[0] == '[' then Beyond
    else Bad
  }

  /** One member, from its key's opening quote to the end of its value. */
  function ReadMember(s: string): (r: Read<(string, Value)>)
    ensures r.Got? ==> |r.rest| < |s|
  {
    if s == "" || s[0] != '"' then Bad
    else
      match ReadChars(s[1..])
      case Bad => Bad
      case Beyond => Beyond
      case Got(key, afterKey) =>
        var colon := SkipWs(afterKey);
        if colon == "" || colon[0] != ':' then Bad
        else
          match ReadValue(SkipWs(colon[1..]))
          case Bad => Bad
          case Beyond => Beyond
          case Got(value, rest) => Got((key, value), rest)
  }

  /** Members from the first key's opening quote past the closing brace; a
      repeated key keeps its last value. */
  function ReadMembers(s: string, sofar: Object): (r: Read<Object>)
    ensures r.Got? ==> |r.rest| < |s|
    decreases |s|
  {
    match ReadMember(s)
    case Bad => Bad
    case Beyond => Beyond
    case Got(member, rest) =>
      var fields := sofar[member.0 := member.1];
      var next := SkipWs(rest);
      if next == "" then Bad
      else if next[0] == '}' then Got(fields, next[1..])
      else if next[0] == ',' then ReadMembers(SkipWs(next[1..]), fields)
      else Bad
  }

  /** What `json.Unmarshal` into a `map[string]interface{}` makes of a text. */
  datatype Outcome = Decoded(fields: Object) | Undecodable | OutOfScope

  function Decode(text: string): Outcome {
    var s := SkipWs(text);
    if s == "" then Undecodable
    else if s[0] == '{' then
      var inner := SkipWs(s[1..]);
      var r := if inner != "" && inner[0] == '}' then Got(map[], inner[1..]) else ReadMembers(inner, map[]);
      match r
      case Got(fields, rest) => if SkipWs(rest) == "" then Decoded(fields) else Undecodable
      case Bad => Undecodable
      case Beyond => OutOfScope
    else if "null" <= s && SkipWs(s[4..]) == "" then Decoded(map[])
    else Undecodable
  }

  /** What the caller of `json.Unmarshal` sees of it. */
  datatype Parsed = Fields(fields: Object) | NotAnObject

  type Unmarshal = string -> Parsed

  /** An unmarshaller that agrees with Decode, and answers anything on the texts that
      Decode does not follow. */
  ghost predicate Faithful(unmarshal: Unmarshal) {
    forall text ::
      && (Decode(text).Decoded? ==> unmarshal(text) == Fields(Decode(text).fields))
      && (Decode(text).Undecodable? ==> unmarshal(text) == NotAnObject)
  }

  /** A value that some decoded text holds. */
  ghost predicate Produced(unmarshal: Unmarshal, v: Value) {
    exists text, key :: unmarshal(text).Fields? && key in unmarshal(text).fields && unmarshal(text).fields[key] == v
  }

  /** What was decoded once, nested or not, is read back from the text it marshals to. */
  ghost predicate Stable(unmarshal: Unmarshal) {
    forall m: Object :: (forall key :: key in m ==> Produced(unmarshal, m[key])) ==> unmarshal(Marshal(m)) == Fields(m)
  }

  // ----- writing

  function HexDigits(u: nat): (h: string)
    requires u < 0x1_0000
    ensures HasHex4(h) && |h| == 4
  {
    var high, low := u / 0x100, u % 0x100;
    [HexChar(high / 0x10), HexChar(high % 0x10), HexChar(low / 0x10), HexChar(low % 0x10)]
  }

  /** `\u` and four lower-case hexadecimal digits. */
  function UnicodeEscape(c: char): string
    requires c as int < 0x1_0000
  {
    "\\u" + HexDigits(c as int)
  }

  /** How `json.Marshal` writes one character of a string (HTML escaping is on). */
  function EscapeChar(c: char): (e: string)
    ensures e != ""
  {
    if c == '"' then "\\\""
    else if c == '\\' then "\\\\"
    else if c == '\U{0008}' then "\\b"
    else if c == '\U{000C}' then "\\f"
    else if c == '\n' then "\\n"
    else if c == '\r' then "\\r"
    else if c == '\t' then "\\t"
    else if c < ' ' || c == '<' || c == '>' || c == '&' || c == '\U{2028}' || c == '\U{2029}' then
      UnicodeEscape(c)
    else [c]
  }

  function Escape(s: string): string {
    if s == "" then "" else EscapeChar(s[0]) + Escape(s[1..])
  }

  /** Strings that stand for themselves between quotes. */
  predicate Plain(s: string) {
    forall i :: 0 <= i < |s| ==> s[i] != '"' && s[i] != '\\' && s[i] >= ' '
  }

  /** A layout of object text: whether strings are escaped, and the blanks used. */
  datatype Layout = Layout(escaped: bool, open: string, beforeColon: string, afterColon: string,
                           beforeComma: string, afterComma: string, close: string)
  {
    ghost predicate Blank() {
      && AllWs(open) && AllWs(beforeColon) && AllWs(afterColon)
      && AllWs(beforeComma) && AllWs(afterComma) && AllWs(close)
    }
  }

  /** `json.Marshal`'s own layout. */
  const COMPACT := Layout(true, "", "", "", "", "", "")

  function StringText(s: string, layout: Layout): string {
    if layout.escaped then Escape(s) else s
  }

  function ValueText(v: Value, layout: Layout): (t: string)
    ensures FlatValue(v) ==> t != "" && !IsWs(t[0])
  {
    match v
    case Null => "null"
    case Bool(b) => if b then "true" else "false"
    case Int(n) => Decimal(n)
    case Str(s) => "\"" + StringText(s, layout) + "\""
    case Nested(json) => json
    case Other(_, json) => json
  }

  predicate Writable(m: Object, keys: seq<string>) {
    forall i :: 0 <= i < |keys| ==> keys[i] in m
  }

  function MemberText(key: string, v: Value, layout: Layout): string {
    "\"" + StringText(key, layout) + "\"" + layout.beforeColon + ":" + layout.afterColon + ValueText(v, layout)
  }

  function WriteMembers(m: Object, keys: seq<string>, layout: Layout): string
    requires keys != [] && Writable(m, keys)
  {
    MemberText(keys[0], m[keys[0]], layout)
    + if |keys| == 1 then layout.close + "}"
      else layout.beforeComma + "," + (layout.afterComma + WriteMembers(m, keys[1..], layout))
  }

  /** The text of an object, its members in the order of `keys`. */
  function Write(m: Object, keys: seq<string>, layout: Layout): string
    requires Writable(m, keys)
  {
    if keys == [] then "{" + layout.open + "}"
    else "{" + layout.open + WriteMembers(m, keys, layout)
  }

  // ----- marshalling sorts the keys

  predicate LexLeq(a: string, b: string) {
    a == "" || (b != "" && (a[0] < b[0] || (a[0] == b[0] && LexLeq(a[1..], b[1..]))))
  }

  lemma {:induction false} LexTotal(a: string, b: string)
    ensures LexLeq(a, b) || LexLeq(b, a)
    ensures LexLeq(a, b) && LexLeq(b, a) ==> a == b
  {
    if a != "" && b != "" && a[0] == b[0] {
      LexTotal(a[1..], b[1..]);
      assert a == [a[0]] + a[1..] && b == [b[0]] + b[1..];
    }
  }

  lemma {:induction false} LexTransitive(a: string, b: string, c: string)
    requires LexLeq(a, b) && LexLeq(b, c)
    ensures LexLeq(a, c)
  {
    if a != "" && a[0] == b[0] == c[0] {
      LexTransitive(a[1..], b[1..], c[1..]);
    }
  }

  predicate IsLeast(k: string, keys: set<string>) {
    k in keys && forall other :: other in keys ==> LexLeq(k, other)
  }

  lemma {:induction false} LeastExists(keys: set<string>)
    requires keys != {}
    ensures exists k :: IsLeast(k, keys)
  {
    var some :| some in keys;
    var others := keys - {some};
    LexTotal(some, some);
    if others == {} {
      assert keys == {some};
      assert IsLeast(some, keys);
    } else {
      LeastExists(others);
      var least :| IsLeast(least, others);
      LexTotal(some, least);
      var k := if LexLeq(some, least) then some else least;
      forall other | other in keys ensures LexLeq(k, other) {
        if other != some && k == some { LexTransitive(some, least, other); }
      }
      assert IsLeast(k, keys);
    }
  }

  function Least(keys: set<string>): (k: string)
    requires keys != {}
    ensures IsLeast(k, keys)
  {
    LeastExists(keys);
    assert forall a, b | IsLeast(a, keys) && IsLeast(b, keys) :: a == b by {
      forall a, b | IsLeast(a, keys) && IsLeast(b, keys) ensures a == b { LexTotal(a, b); }
    }
    var k :| k in keys && IsLeast(k, keys);
    k
  }

  predicate Sorted(keys: seq<string>) {
    forall i, j :: 0 <= i < j < |keys| ==> keys[i] != keys[j] && LexLeq(keys[i], keys[j])
  }

  function SortedKeys(keys: set<string>): (order: seq<string>)
    ensures Sorted(order)
    ensures forall k :: k in order <==> k in keys
    decreases |keys|
  {
    if keys == {} then []
    else
      var rest := SortedKeys(keys - {Least(keys)});
      assert forall i :: 0 <= i < |rest| ==> rest[i] in keys - {Least(keys)};
      [Least(keys)] + rest
  }

  /** `json.Marshal` of an object. */
  function Marshal(m: Object): string {
    Write(m, SortedKeys(m.Keys), COMPACT)
  }
}
