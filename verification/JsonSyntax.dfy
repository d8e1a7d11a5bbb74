/** The object texts of RFC 8259 spelled out, blanks, escapes and all, and that the
    decoder of Json reads exactly these, each to what it denotes. */
module JsonSyntax {
  import opened Text
  import opened Json

  // ----- strings (section 7)

  datatype Spelling =
    | Verbatim(c: char)
    | Short(e: char)                    // a backslash and one letter or sign
    | Code(hex: string)                 // `\u` and four digits
    | Pair(high: string, low: string)   // two of these, a pair of surrogates
    | Lone(hex: string)                 // a surrogate by itself
  {
    function Text(): (t: string)
      ensures t != ""
    {
      match this
      case Verbatim(c) => [c]
      case Short(e) => "\\" + [e]
      case Code(hex) => "\\u" + hex
      case Pair(high, low) => "\\u" + high + ("\\u" + low)
      case Lone(hex) => "\\u" + hex
    }

    predicate Proper() {
      match this
      case Verbatim(c) => c >= ' ' && c != '"' && c != '\\'
      case Short(e) => e in "\"\\/bfnrt"
      case Code(hex) => FourHex(hex) && !Surrogate(HexNumber(hex))
      case Pair(high, low) => HighHex(high) && LowHex(low)
      case Lone(hex) => FourHex(hex) && Surrogate(HexNumber(hex))
    }

    /** The character it stands for. */
    function Char(): char
      requires Proper()
    {
      match this
      case Verbatim(c) => c
      case Short(e) =>
        if e == 'b' then '\U{0008}' else if e == 'f' then '\U{000C}' else if e == 'n' then '\n'
        else if e == 'r' then '\r' else if e == 't' then '\t' else e
      case Code(hex) => HexNumber(hex) as char
      case Pair(high, low) => (0x1_0000 + (HexNumber(high) - 0xD800) * 0x400 + (HexNumber(low) - 0xDC00)) as char
      case Lone(_) => '\U{FFFD}'
    }
  }

  predicate FourHex(h: string) { |h| == 4 && IsHex(h[0]) && IsHex(h[1]) && IsHex(h[2]) && IsHex(h[3]) }

  function HexNumber(h: string): (u: nat)
    requires FourHex(h)
    ensures u < 0x1_0000
  {
    ((HexValue(h[0]) * 16 + HexValue(h[1])) * 16 + HexValue(h[2])) * 16 + HexValue(h[3])
  }

  /** The sixteen digits, in either case. */
  lemma HexDigitValues(d: nat)
    requires d < 16
    ensures HexValue("0123456789abcdef"[d]) == d && HexValue("0123456789ABCDEF"[d]) == d
  {}

  predicate Surrogate(u: nat) { 0xD800 <= u < 0xE000 }

  predicate HighHex(h: string) { FourHex(h) && 0xD800 <= HexNumber(h) < 0xDC00 }

  predicate LowHex(h: string) { FourHex(h) && 0xDC00 <= HexNumber(h) < 0xE000 }

  /** A high surrogate and the low one behind it are a pair, never two lone ones. */
  predicate ProperAll(sps: seq<Spelling>) {
    sps != [] ==>
      && sps[0].Proper() && ProperAll(sps[1..])
      && !(|sps| > 1 && sps[0].Lone? && HighHex(sps[0].hex) && sps[1].Lone? && LowHex(sps[1].hex))
  }

  function Spelled(sps: seq<Spelling>): string {
    if sps == [] then "" else sps[0].Text() + Spelled(sps[1..])
  }

  function Chars(sps: seq<Spelling>): string
    requires ProperAll(sps)
  {
    if sps == [] then "" else [sps[0].Char()] + Chars(sps[1..])
  }

  lemma Hex4Agrees(h: string, rest: string)
    requires |h| == 4
    ensures HasHex4(h + rest) <==> FourHex(h)
    ensures FourHex(h) ==> Hex4(h + rest) == HexNumber(h)
  {
    hide IsHex, HexValue;
  }

  // the reader takes one spelling at a time

  /** What the reader makes of the front of a string's text. */
  function ReadOne(s: string): Read<char>
    requires s != ""
  {
    if s[0] == '\\' then ReadEscape(s[1..]) else Got(s[0], s[1..])
  }

  lemma ReadCharsStep(s: string)
    requires s != "" && s[0] >= ' ' && s[0] != '"' && ReadOne(s).Got?
    ensures ReadChars(s) == match ReadChars(ReadOne(s).rest)
                            case Got(more, rest) => Got([ReadOne(s).value] + more, rest)
                            case Bad => Bad
                            case Beyond => Beyond
  {
    hide ReadEscape;
  }

  /** What follows begins like a low surrogate's escape. */
  predicate LowNext(rest: string) {
    |rest| >= 6 && rest[0] == '\\' && rest[1] == 'u' && LowHex(rest[2..6])
  }

  lemma LowNextAgrees(rest: string)
    ensures LowNext(rest) <==> "\\u" <= rest && HasHex4(rest[2..]) && 0xDC00 <= Hex4(rest[2..]) < 0xE000
  {
    if |rest| >= 6 {
      Hex4Agrees(rest[2..6], rest[6..]);
      assert rest[2..] == rest[2..6] + rest[6..];
      assert "\\u" <= rest <==> rest[..2] == "\\u";
      assert rest[..2] == [rest[0], rest[1]];
    }
  }

  lemma ReadUnicodeParts(hex: string, rest: string)
    requires FourHex(hex)
    ensures ReadUnicode(hex + rest) ==
              if !Surrogate(HexNumber(hex)) then Got(HexNumber(hex) as char, rest)
              else if HighHex(hex) && LowNext(rest) then Got(Pair(hex, rest[2..6]).Char(), rest[6..])
              else Got('\U{FFFD}', rest)
  {
    Hex4Agrees(hex, rest);
    LowNextAgrees(rest);
    var s := hex + rest;
    assert s[4..] == rest;
    hide HexNumber, Hex4, HasHex4, FourHex;
    if |rest| >= 2 { assert s[6..] == rest[2..]; }
    if LowNext(rest) {
      Hex4Agrees(rest[2..6], rest[6..]);
      assert rest[2..] == rest[2..6] + rest[6..];
      assert s[10..] == rest[6..];
    }
  }

  lemma ReadShort(e: char, rest: string)
    requires Short(e).Proper()
    ensures ReadOne("\\" + [e] + rest) == Got(Short(e).Char(), rest)
  {
    var s := "\\" + [e] + rest;
    assert s[1..] == [e] + rest && s[1..][1..] == rest;
    hide ReadUnicode;
  }

  lemma ReadBackslashU(t: string)
    ensures ReadOne("\\u" + t) == ReadUnicode(t)
  {
    var s := "\\u" + t;
    assert s[1..] == "u" + t && s[1..][1..] == t;
    hide ReadUnicode;
  }

  lemma ReadOneSpelling(sp: Spelling, rest: string)
    requires sp.Proper() && !(sp.Lone? && HighHex(sp.hex) && LowNext(rest))
    ensures ReadOne(sp.Text() + rest) == Got(sp.Char(), rest)
    ensures (sp.Text() + rest)[0] >= ' ' && (sp.Text() + rest)[0] != '"'
  {
    hide ReadUnicode, HexNumber, FourHex, LowNext;
    match sp
    case Verbatim(c) =>
      assert ([c] + rest)[1..] == rest;
    case Short(e) =>
      ReadShort(e, rest);
    case Code(hex) =>
      hide ReadOne;
      ReadBackslashU(hex + rest);
      assert "\\u" + hex + rest == "\\u" + (hex + rest);
      ReadUnicodeParts(hex, rest);
    case Lone(hex) =>
      hide ReadOne;
      ReadBackslashU(hex + rest);
      assert "\\u" + hex + rest == "\\u" + (hex + rest);
      ReadUnicodeParts(hex, rest);
    case Pair(high, low) =>
      hide ReadOne;
      var more := "\\u" + low + rest;
      ReadBackslashU(high + more);
      assert "\\u" + high + ("\\u" + low) + rest == "\\u" + (high + more);
      PairFollows(low, rest);
      ReadUnicodeParts(high, more);
  }

  lemma PairFollows(low: string, rest: string)
    requires LowHex(low)
    ensures LowNext("\\u" + low + rest) && ("\\u" + low + rest)[2..6] == low && ("\\u" + low + rest)[6..] == rest
  {
    assert ("\\u" + low + rest)[2..6] == low;
  }

  lemma HexBehind(hex: string, more: string)
    requires |hex| == 4
    ensures ("\\u" + hex + more)[2..6] == hex
  {}

  /** Only a lone low surrogate begins like one. */
  lemma LowNextIsLone(sp: Spelling, more: string)
    requires sp.Proper() && LowNext(sp.Text() + more)
    ensures sp.Lone? && LowHex(sp.hex)
  {
    hide HexNumber, IsHex;
    match sp
    case Verbatim(c) =>
    case Short(e) =>
    case Code(hex) => HexBehind(hex, more);
    case Lone(hex) => HexBehind(hex, more);
    case Pair(high, low) =>
      HexBehind(high, "\\u" + low + more);
      PairJoined(high, low, more);
  }

  lemma PairJoined(high: string, low: string, more: string)
    ensures "\\u" + high + ("\\u" + low) + more == "\\u" + high + ("\\u" + low + more)
  {}

  lemma SpelledFront(sps: seq<Spelling>, rest: string)
    requires sps != []
    ensures Spelled(sps) + "\"" + rest == sps[0].Text() + (Spelled(sps[1..]) + "\"" + rest)
  {}

  /** No low surrogate follows a lone high one. */
  lemma NoPartner(sps: seq<Spelling>, rest: string)
    requires ProperAll(sps) && sps != [] && sps[0].Lone? && HighHex(sps[0].hex)
    ensures !LowNext(Spelled(sps[1..]) + "\"" + rest)
  {
    var tail := sps[1..];
    hide LowHex, HighHex;
    if tail != [] {
      SpelledFront(tail, rest);
      assert tail[0] == sps[1] && tail[0].Proper();
      hide Spelled, ProperAll;
      if LowNext(tail[0].Text() + (Spelled(tail[1..]) + "\"" + rest)) {
        LowNextIsLone(tail[0], Spelled(tail[1..]) + "\"" + rest);
      }
    }
  }

  /** Every proper spelling is read to the characters it stands for. */
  lemma {:induction false} ReadSpelled(sps: seq<Spelling>, rest: string)
    requires ProperAll(sps)
    ensures ReadChars(Spelled(sps) + "\"" + rest) == Got(Chars(sps), rest)
  {
    var s := Spelled(sps) + "\"" + rest;
    if sps == [] {
      assert s == "\"" + rest;
    } else {
      ReadSpelled(sps[1..], rest);
      SpelledFront(sps, rest);
      if sps[0].Lone? && HighHex(sps[0].hex) { NoPartner(sps, rest); }
      var more := Spelled(sps[1..]) + "\"" + rest;
      hide ReadChars, LowNext, Spelled, ReadOne, HighHex;
      ReadOneSpelling(sps[0], more);
      ReadCharsStep(s);
    }
  }

  lemma UnicodeSpelled(t: string) returns (sp: Spelling)
    requires ReadUnicode(t).Got?
    ensures sp.Proper() && "\\u" + t == sp.Text() + ReadUnicode(t).rest && ReadUnicode(t).value == sp.Char()
    ensures sp.Lone? && HighHex(sp.hex) ==> !LowNext(ReadUnicode(t).rest)
  {
    var hex, rest := t[..4], t[4..];
    assert t == hex + rest;
    Hex4Agrees(hex, rest);
    ReadUnicodeParts(hex, rest);
    hide ReadUnicode, HexNumber, IsHex;
    if !Surrogate(HexNumber(hex)) {
      sp := Code(hex);
      assert "\\u" + t == "\\u" + hex + rest;
    } else if HighHex(hex) && LowNext(rest) {
      sp := Pair(hex, rest[2..6]);
      PairSpelled(hex, rest);
    } else {
      sp := Lone(hex);
      assert "\\u" + t == "\\u" + hex + rest;
    }
  }

  lemma PairSpelled(hex: string, rest: string)
    requires |rest| >= 6 && rest[0] == '\\' && rest[1] == 'u'
    ensures "\\u" + (hex + rest) == "\\u" + hex + ("\\u" + rest[2..6]) + rest[6..]
  {
    assert rest == "\\u" + rest[2..6] + rest[6..];
    PairJoined(hex, rest[2..6], rest[6..]);
    assert "\\u" + (hex + rest) == "\\u" + hex + rest;
  }

  lemma OneSpelled(s: string) returns (sp: Spelling)
    requires s != "" && s[0] >= ' ' && s[0] != '"' && ReadOne(s).Got?
    ensures sp.Proper() && s == sp.Text() + ReadOne(s).rest && ReadOne(s).value == sp.Char()
    ensures sp.Lone? && HighHex(sp.hex) ==> !LowNext(ReadOne(s).rest)
  {
    hide ReadUnicode, HexNumber, LowNext;
    if s[0] != '\\' {
      sp := Verbatim(s[0]);
    } else if s[1] == 'u' {
      assert s == "\\u" + s[2..];
      ReadBackslashU(s[2..]);
      sp := UnicodeSpelled(s[2..]);
    } else {
      sp := Short(s[1]);
      assert s == "\\" + [s[1]] + s[2..] && s[1..][1..] == s[2..];
    }
  }

  lemma ReadCharsTakes(s: string)
    requires ReadChars(s).Got? && s[0] != '"'
    ensures s != "" && s[0] >= ' ' && ReadOne(s).Got? && ReadChars(ReadOne(s).rest).Got?
  {
    hide ReadEscape;
  }

  lemma LoneLowNext(hex: string, more: string)
    requires LowHex(hex)
    ensures LowNext("\\u" + hex + more)
  {
    HexBehind(hex, more);
  }

  lemma ProperFront(sp: Spelling, sps: seq<Spelling>, rest: string)
    requires sp.Proper() && ProperAll(sps)
    requires sp.Lone? && HighHex(sp.hex) ==> !LowNext(Spelled(sps) + "\"" + rest)
    ensures ProperAll([sp] + sps) && Spelled([sp] + sps) == sp.Text() + Spelled(sps)
    ensures Chars([sp] + sps) == [sp.Char()] + Chars(sps)
  {
    var all := [sp] + sps;
    assert all[1..] == sps;
    hide LowNext, LowHex, HighHex;
    if sps != [] && sps[0].Lone? && LowHex(sps[0].hex) {
      SpelledFront(sps, rest);
      LoneLowNext(sps[0].hex, Spelled(sps[1..]) + "\"" + rest);
    }
  }

  /** And nothing else is read. */
  lemma {:induction false} ReadIsSpelled(s: string) returns (sps: seq<Spelling>)
    requires ReadChars(s).Got?
    ensures ProperAll(sps) && s == Spelled(sps) + "\"" + ReadChars(s).rest && ReadChars(s).value == Chars(sps)
    decreases |s|
  {
    if s[0] == '"' {
      sps := [];
    } else {
      ReadCharsTakes(s);
      ReadCharsStep(s);
      var rest := ReadOne(s).rest;
      var sp := OneSpelled(s);
      assert |rest| < |s|;
      hide ReadOne;
      var more := ReadIsSpelled(rest);
      hide ReadChars, LowNext;
      ProperFront(sp, more, ReadChars(rest).rest);
      sps := [sp] + more;
    }
  }

  /** The reader takes exactly the proper spellings, each to what it stands for. */
  lemma StringReadIff(s: string, v: string, rest: string)
    ensures ReadChars(s) == Got(v, rest) <==>
              exists sps :: ProperAll(sps) && s == Spelled(sps) + "\"" + rest && v == Chars(sps)
  {
    hide ReadChars, Spelled, Chars, ProperAll;
    if ReadChars(s) == Got(v, rest) {
      var sps := ReadIsSpelled(s);
    }
    forall sps | ProperAll(sps) && s == Spelled(sps) + "\"" + rest && v == Chars(sps)
      ensures ReadChars(s) == Got(v, rest)
    {
      ReadSpelled(sps, rest);
    }
  }

  // ----- values (sections 3 and 6)

  ghost predicate StringDenotes(t: string, v: string) {
    exists sps :: ProperAll(sps) && t == "\"" + Spelled(sps) + "\"" && v == Chars(sps)
  }

  /** The values this model reads, and their texts.  A numeral has no leading zero. */
  ghost predicate Denotes(t: string, v: Value) {
    match v
    case Null => t == "null"
    case Bool(b) => t == if b then "true" else "false"
    case Int(n) => Exact(n) && t == Decimal(n)
    case Str(s) => StringDenotes(t, s)
    case _ => false
  }

  /** What may follow a value inside an object. */
  predicate EndsValue(rest: string) {
    rest != "" && (IsWs(rest[0]) || rest[0] == ',' || rest[0] == '}')
  }

  lemma {:induction false} DigitRunOf(digits: string, rest: string)
    requires AllDigits(digits)
    requires rest != "" ==> !IsDigit(rest[0])
    ensures DigitRun(digits + rest) == |digits|
  {
    var s := digits + rest;
    if digits != "" {
      assert s[0] == digits[0] && s[1..] == digits[1..] + rest;
      DigitRunOf(digits[1..], rest);
    } else {
      assert s == rest;
    }
  }

  /** The shortest numeral is the only one without a leading zero. */
  lemma {:induction false} DigitsOfNatValue(s: string)
    requires AllDigits(s) && s != "" && (s[0] == '0' ==> |s| == 1)
    ensures Digits(NatValue(s)) == s
    ensures NatValue(s) == 0 <==> s == "0"
  {
    var front := s[..|s| - 1];
    if |s| == 1 {
      assert NatValue(front) == 0;
    } else {
      DigitsOfNatValue(front);
      assert s == front + [s[|s| - 1]];
    }
  }

  /** A numeral's digits, without leading zero. */
  predicate Unpadded(digits: string) { AllDigits(digits) && digits != "" && (digits[0] == '0' ==> |digits| == 1) }

  /** What the reader makes of these digits in front of this rest. */
  function ReadDigits(digits: string, rest: string, negative: bool): Read<Value>
    requires Unpadded(digits)
  {
    if rest != "" && FractionOrExponent(rest[0]) then Beyond
    else if NatValue(digits) > MAX_EXACT || (negative && NatValue(digits) == 0) then Beyond
    else Got(Int(if negative then 0 - NatValue(digits) else NatValue(digits)), rest)
  }

  lemma MagnitudeFromParts(s: string, digits: string, rest: string, negative: bool)
    requires DigitRun(s) > 0 && Unpadded(digits)
    requires var used := if s[0] == '0' then 1 else DigitRun(s); s[..used] == digits && s[used..] == rest
    ensures ReadMagnitude(s, negative) == ReadDigits(digits, rest, negative)
  {
    hide DigitRun, NatValue;
  }

  /** The digits that a magnitude takes. */
  lemma MagnitudeTaken(s: string, negative: bool) returns (digits: string, rest: string)
    requires DigitRun(s) > 0
    ensures s == digits + rest && Unpadded(digits)
    ensures digits == "0" || rest == "" || !IsDigit(rest[0])
    ensures ReadMagnitude(s, negative) == ReadDigits(digits, rest, negative)
  {
    var used := if s[0] == '0' then 1 else DigitRun(s);
    digits, rest := s[..used], s[used..];
    assert forall i :: 0 <= i < used ==> digits[i] == s[..DigitRun(s)][i];
    hide DigitRun, ReadMagnitude, ReadDigits;
    MagnitudeFromParts(s, digits, rest, negative);
  }

  lemma MagnitudeOf(digits: string, rest: string, negative: bool)
    requires Unpadded(digits) && (rest == "" || !IsDigit(rest[0]) || digits == "0")
    ensures ReadMagnitude(digits + rest, negative) == ReadDigits(digits, rest, negative)
  {
    var s := digits + rest;
    assert s[0] == digits[0];
    if digits == "0" {
      assert DigitRun(s) > 0;
    } else {
      DigitRunOf(digits, rest);
    }
    hide DigitRun, ReadMagnitude, ReadDigits;
    assert s[..|digits|] == digits && s[|digits|..] == rest;
    MagnitudeFromParts(s, digits, rest, negative);
  }

  lemma ReadNumeral(n: int, rest: string)
    requires Exact(n) && EndsValue(rest)
    ensures ReadNumber(Decimal(n) + rest) == Got(Int(n), rest)
  {
    var magnitude := if n < 0 then -n else n;
    var s := Decimal(n) + rest;
    hide Digits, NatValue, ReadMagnitude;
    NatValueOfDigits(magnitude);
    MagnitudeOf(Digits(magnitude), rest, n < 0);
    if n < 0 {
      assert s[1..] == Digits(magnitude) + rest;
    } else {
      assert s[0] == Digits(magnitude)[0];
    }
  }

  lemma DecimalOfDigits(digits: string, negative: bool)
    requires Unpadded(digits) && (negative ==> NatValue(digits) != 0)
    ensures Decimal(if negative then 0 - NatValue(digits) else NatValue(digits))
            == (if negative then "-" else "") + digits
  {
    DigitsOfNatValue(digits);
    hide Digits, NatValue;
    assert "" + digits == digits;
  }

  lemma SignedCut(sign: string, digits: string, rest: string)
    ensures var s := sign + digits + rest;
            s[..|s| - |rest|] == sign + digits && s[|s| - |rest|..] == rest
  {}

  lemma NumberIsMagnitude(s: string)
    ensures ReadNumber(s) == if s != "" && s[0] == '-' then ReadMagnitude(s[1..], true) else ReadMagnitude(s, false)
    ensures !ReadNumber(s).Bad? ==> DigitRun(if s != "" && s[0] == '-' then s[1..] else s) > 0
  {
    hide DigitRun;
  }

  lemma DigitsDenote(digits: string, rest: string, negative: bool)
    requires Unpadded(digits) && ReadDigits(digits, rest, negative).Got?
    ensures var r := ReadDigits(digits, rest, negative);
            r.rest == rest && r.value.Int? && Denotes((if negative then "-" else "") + digits, r.value)
  {
    hide Decimal;
    DecimalOfDigits(digits, negative);
    hide NatValue;
  }

  lemma NumeralRead(s: string)
    requires ReadNumber(s).Got?
    ensures ReadNumber(s).value.Int? && Denotes(s[..|s| - |ReadNumber(s).rest|], ReadNumber(s).value)
    ensures |ReadNumber(s).rest| <= |s| && ReadNumber(s).rest == s[|s| - |ReadNumber(s).rest|..]
  {
    hide ReadNumber, ReadMagnitude, DigitRun, Denotes, ReadDigits, Unpadded;
    NumberIsMagnitude(s);
    var negative := s != "" && s[0] == '-';
    var sign, t := SignOf(s);
    var digits, rest := MagnitudeTaken(t, negative);
    DigitsDenote(digits, rest, negative);
    SignJoined(sign, digits, rest);
    SignedCut(sign, digits, rest);
  }

  lemma SignOf(s: string) returns (sign: string, t: string)
    ensures s == sign + t
    ensures if s != "" && s[0] == '-' then sign == "-" && t == s[1..] else sign == "" && t == s
  {
    if s != "" && s[0] == '-' {
      sign, t := "-", s[1..];
    } else {
      sign, t := "", s;
    }
  }

  lemma SignJoined(sign: string, digits: string, rest: string)
    ensures sign + (digits + rest) == sign + digits + rest
  {}

  lemma ReadWord(word: string, rest: string)
    requires word == "true" || word == "false" || word == "null"
    ensures ReadValue(word + rest) ==
            Got(if word == "true" then Bool(true) else if word == "false" then Bool(false) else Null, rest)
  {}

  lemma ReadNumeralValue(n: int, rest: string)
    requires Exact(n) && EndsValue(rest)
    ensures ReadValue(Decimal(n) + rest) == Got(Int(n), rest)
    ensures Decimal(n) != "" && !IsWs(Decimal(n)[0])
  {
    hide ReadNumber, Decimal;
    ReadNumeral(n, rest);
    assert (Decimal(n) + rest)[0] == Decimal(n)[0];
  }

  lemma StringValueFromParts(s: string, v: string, rest: string)
    requires s != "" && s[0] == '"' && ReadChars(s[1..]) == Got(v, rest)
    ensures ReadValue(s) == Got(Str(v), rest)
  {
    hide ReadChars;
  }

  lemma QuotedFront(spelled: string, rest: string)
    ensures var s := "\"" + spelled + "\"" + rest; s[0] == '"' && s[1..] == spelled + "\"" + rest
  {}

  lemma ReadStringValue(t: string, s: string, rest: string)
    requires StringDenotes(t, s)
    ensures ReadValue(t + rest) == Got(Str(s), rest) && t != "" && t[0] == '"'
    ensures ReadChars((t + rest)[1..]) == Got(s, rest)
  {
    var sps :| ProperAll(sps) && t == "\"" + Spelled(sps) + "\"" && s == Chars(sps);
    hide ReadChars, ReadValue, Spelled, ProperAll, Chars;
    ReadSpelled(sps, rest);
    QuotedFront(Spelled(sps), rest);
    StringValueFromParts(t + rest, s, rest);
  }

  /** A value's text is read to the value. */
  lemma ReadDenoted(t: string, v: Value, rest: string)
    requires Denotes(t, v) && EndsValue(rest)
    ensures ReadValue(t + rest) == Got(v, rest)
    ensures t != "" && !IsWs(t[0])
  {
    hide ReadValue, Decimal, StringDenotes;
    match v
    case Null => ReadWord("null", rest);
    case Bool(b) => ReadWord(if b then "true" else "false", rest);
    case Int(n) => ReadNumeralValue(n, rest);
    case Str(s) => ReadStringValue(t, s, rest);
  }

  lemma StringRead(s: string)
    requires s != "" && s[0] == '"' && ReadChars(s[1..]).Got?
    ensures var rest := ReadChars(s[1..]).rest;
            && |rest| <= |s| && rest == s[|s| - |rest|..]
            && StringDenotes(s[..|s| - |rest|], ReadChars(s[1..]).value)
  {
    var sps := ReadIsSpelled(s[1..]);
    hide ReadChars;
    var rest := ReadChars(s[1..]).rest;
    assert s == "\"" + Spelled(sps) + "\"" + rest;
    assert s[..|s| - |rest|] == "\"" + Spelled(sps) + "\"";
  }

  /** What is read as a value is its text. */
  lemma ReadIsDenoted(s: string)
    requires ReadValue(s).Got?
    ensures var rest := ReadValue(s).rest;
            && |rest| <= |s| && rest == s[|s| - |rest|..]
            && Denotes(s[..|s| - |rest|], ReadValue(s).value)
  {
    hide ReadChars, ReadNumber, StringDenotes;
    if s[0] == '"' {
      StringRead(s);
    } else if s[0] == '-' || IsDigit(s[0]) {
      NumeralRead(s);
    }
  }
}
