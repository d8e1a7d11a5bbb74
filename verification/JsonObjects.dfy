/** Whole object texts (RFC 8259, sections 2 and 4), with blanks anywhere they may
    stand: what decodes, to what, and what the decoder does not follow. */
module JsonObjects {
  import opened Text
  import opened Json
  import opened JsonSyntax

  // ----- blanks

  /** The four blanks of section 2. */
  lemma BlankSigns(c: char)
    ensures IsWs(c) <==> c as int in {0x20, 0x09, 0x0A, 0x0D}
  {}

  lemma {:induction false} SkipBlank(blank: string, rest: string)
    requires AllWs(blank)
    requires rest != "" ==> !IsWs(rest[0])
    ensures SkipWs(blank + rest) == rest
  {
    var s := blank + rest;
    if blank != "" {
      assert s[0] == blank[0] && s[1..] == blank[1..] + rest;
      SkipBlank(blank[1..], rest);
    } else {
      assert s == rest;
    }
  }

  /** The blanks that are skipped. */
  lemma {:induction false} SkippedBlank(s: string) returns (blank: string)
    ensures s == blank + SkipWs(s) && AllWs(blank)
    ensures SkipWs(s) != "" ==> !IsWs(SkipWs(s)[0])
  {
    if s != "" && IsWs(s[0]) {
      var more := SkippedBlank(s[1..]);
      blank := [s[0]] + more;
      assert s == [s[0]] + s[1..];
    } else {
      blank := "";
    }
  }

  // ----- members

  datatype Member = Member(before: string, keyText: string, key: string, beforeColon: string, afterColon: string,
                           valueText: string, value: Value, after: string)
  {
    ghost predicate Proper() {
      && AllWs(before) && StringDenotes(keyText, key) && AllWs(beforeColon)
      && AllWs(afterColon) && Denotes(valueText, value) && AllWs(after)
    }

    function Text(): string {
      before + (keyText + (beforeColon + (":" + (afterColon + (valueText + after)))))
    }
  }

  ghost predicate ProperAllMembers(ms: seq<Member>) { forall i :: 0 <= i < |ms| ==> ms[i].Proper() }

  /** Members joined by commas, and the closing brace. */
  function Body(ms: seq<Member>): string
    requires ms != []
  {
    ms[0].Text() + if |ms| == 1 then "}" else "," + Body(ms[1..])
  }

  /** Of members with one key the last counts. */
  function Collect(ms: seq<Member>, sofar: Object): Object {
    if ms == [] then sofar else Collect(ms[1..], sofar[ms[0].key := ms[0].value])
  }

  // ----- reading members

  lemma KeyThen(keyText: string, key: string, beforeColon: string, tail: string)
    requires StringDenotes(keyText, key) && AllWs(beforeColon)
    ensures var s := keyText + (beforeColon + (":" + tail));
            && s != "" && s[0] == '"' && ReadChars(s[1..]) == Got(key, beforeColon + (":" + tail))
            && SkipWs(beforeColon + (":" + tail)) == ":" + tail
  {
    hide ReadChars, StringDenotes;
    ReadStringValue(keyText, key, beforeColon + (":" + tail));
    SkipBlank(beforeColon, ":" + tail);
  }

  lemma MemberFromParts(s: string, key: string, afterKey: string, value: string)
    requires s != "" && s[0] == '"' && ReadChars(s[1..]) == Got(key, afterKey)
    requires SkipWs(afterKey) != "" && SkipWs(afterKey)[0] == ':' && SkipWs(SkipWs(afterKey)[1..]) == value
    ensures ReadMember(s) == match ReadValue(value)
                             case Got(v, rest) => Got((key, v), rest)
                             case Bad => Bad
                             case Beyond => Beyond
  {
    hide ReadChars, ReadValue, SkipWs;
  }

  /** A key, a colon and what stands where its value should. */
  lemma ReadKeyed(keyText: string, key: string, beforeColon: string, afterColon: string, value: string)
    requires StringDenotes(keyText, key) && AllWs(beforeColon) && AllWs(afterColon)
    requires value != "" ==> !IsWs(value[0])
    ensures var s := keyText + (beforeColon + (":" + (afterColon + value)));
            && s != "" && !IsWs(s[0])
            && ReadMember(s) == match ReadValue(value)
                                case Got(v, rest) => Got((key, v), rest)
                                case Bad => Bad
                                case Beyond => Beyond
  {
    hide ReadChars, ReadValue, ReadMember, StringDenotes, SkipWs;
    var tail := afterColon + value;
    KeyThen(keyText, key, beforeColon, tail);
    SkipBlank(afterColon, value);
    assert (":" + tail)[1..] == tail;
    MemberFromParts(keyText + (beforeColon + (":" + tail)), key, beforeColon + (":" + tail), value);
  }

  /** A member in front of a comma or a closing brace is read. */
  lemma ReadProperMember(m: Member, rest: string)
    requires m.Proper() && rest != "" && (rest[0] == ',' || rest[0] == '}')
    ensures ReadMember(SkipWs(m.Text() + rest)) == Got((m.key, m.value), m.after + rest)
    ensures SkipWs(m.after + rest) == rest
  {
    hide ReadMember, ReadValue, StringDenotes, Denotes, SkipWs;
    var value := m.valueText + (m.after + rest);
    var keyed := m.keyText + (m.beforeColon + (":" + (m.afterColon + value)));
    assert m.Text() + rest == m.before + keyed;
    ReadDenoted(m.valueText, m.value, m.after + rest);
    ReadKeyed(m.keyText, m.key, m.beforeColon, m.afterColon, value);
    SkipBlank(m.before, keyed);
    SkipBlank(m.after, rest);
  }

  lemma MembersFromParts(s: string, key: string, v: Value, after: string, next: string, sofar: Object)
    requires ReadMember(s) == Got((key, v), after) && SkipWs(after) == next && next != ""
    ensures next[0] == '}' ==> ReadMembers(s, sofar) == Got(sofar[key := v], next[1..])
    ensures next[0] == ',' ==> ReadMembers(s, sofar) == ReadMembers(SkipWs(next[1..]), sofar[key := v])
  {
    hide ReadMember, SkipWs;
  }

  lemma ReadNext(m: Member, tail: string, sofar: Object)
    requires m.Proper()
    ensures ReadMembers(SkipWs(m.Text() + ("," + tail)), sofar) == ReadMembers(SkipWs(tail), sofar[m.key := m.value])
  {
    hide ReadMember, ReadMembers, SkipWs;
    ReadProperMember(m, "," + tail);
    MembersFromParts(SkipWs(m.Text() + ("," + tail)), m.key, m.value, m.after + ("," + tail), "," + tail, sofar);
    assert ("," + tail)[1..] == tail;
  }

  lemma ReadLast(m: Member, rest: string, sofar: Object)
    requires m.Proper()
    ensures ReadMembers(SkipWs(m.Text() + ("}" + rest)), sofar) == Got(sofar[m.key := m.value], rest)
  {
    hide ReadMember, ReadMembers, SkipWs;
    ReadProperMember(m, "}" + rest);
    MembersFromParts(SkipWs(m.Text() + ("}" + rest)), m.key, m.value, m.after + ("}" + rest), "}" + rest, sofar);
    assert ("}" + rest)[1..] == rest;
  }

  lemma BodyFront(ms: seq<Member>)
    requires ms != []
    ensures Body(ms) == ms[0].Text() + if |ms| == 1 then "}" else "," + Body(ms[1..])
  {}

  lemma CollectFront(ms: seq<Member>, sofar: Object)
    requires ms != []
    ensures Collect(ms, sofar) == Collect(ms[1..], sofar[ms[0].key := ms[0].value])
    ensures |ms| == 1 ==> Collect(ms, sofar) == sofar[ms[0].key := ms[0].value]
  {
    if |ms| == 1 { assert ms[1..] == []; }
  }

  lemma FrontJoined(blank: string, t: string, x: string)
    ensures blank + t + x == blank + (t + x)
  {}

  lemma CommaFront(t: string, body: string, rest: string)
    ensures t + ("," + body) + rest == t + ("," + (body + rest))
  {}

  /** Proper members are all read, in order. */
  lemma {:induction false} ReadBody(ms: seq<Member>, rest: string, sofar: Object)
    requires ms != [] && ProperAllMembers(ms)
    ensures ReadMembers(SkipWs(Body(ms) + rest), sofar) == Got(Collect(ms, sofar), rest)
  {
    hide ReadMembers, SkipWs, Body, Collect, Member.Text, Member.Proper;
    BodyFront(ms);
    CollectFront(ms, sofar);
    if |ms| == 1 {
      FrontJoined(ms[0].Text(), "}", rest);
      ReadLast(ms[0], rest, sofar);
    } else {
      ReadBody(ms[1..], rest, sofar[ms[0].key := ms[0].value]);
      CommaFront(ms[0].Text(), Body(ms[1..]), rest);
      ReadNext(ms[0], Body(ms[1..]) + rest, sofar);
    }
  }

  // ----- and nothing else is read

  lemma KeyRead(s: string) returns (keyText: string, beforeColon: string, afterColon: string)
    requires s != "" && s[0] == '"' && ReadChars(s[1..]).Got?
    requires var colon := SkipWs(ReadChars(s[1..]).rest); colon != "" && colon[0] == ':'
    ensures StringDenotes(keyText, ReadChars(s[1..]).value) && AllWs(beforeColon) && AllWs(afterColon)
    ensures var value := SkipWs(SkipWs(ReadChars(s[1..]).rest)[1..]);
            && s == keyText + (beforeColon + (":" + (afterColon + value)))
            && (value != "" ==> !IsWs(value[0]))
  {
    hide ReadChars, StringDenotes, SkipWs;
    StringRead(s);
    var rest := ReadChars(s[1..]).rest;
    keyText := s[..|s| - |rest|];
    assert s == keyText + rest;
    beforeColon := SkippedBlank(rest);
    var colon := SkipWs(rest);
    afterColon := SkippedBlank(colon[1..]);
    assert colon == ":" + colon[1..];
  }

  /** A member that is read is proper. */
  lemma MemberRead(s: string) returns (m: Member)
    requires ReadMember(s).Got?
    ensures m.Proper() && m.before == m.after == "" && s == m.Text() + ReadMember(s).rest
    ensures ReadMember(s).value == (m.key, m.value)
  {
    hide ReadChars, ReadValue, SkipWs, StringDenotes, Denotes;
    var keyText, beforeColon, afterColon := KeyRead(s);
    var key := ReadChars(s[1..]);
    var value := SkipWs(SkipWs(key.rest)[1..]);
    ReadIsDenoted(value);
    var rest := ReadValue(value).rest;
    var valueText := value[..|value| - |rest|];
    assert value == valueText + rest;
    m := Member("", keyText, key.value, beforeColon, afterColon, valueText, ReadValue(value).value, "");
    hide ReadMember;
    Joined(keyText, beforeColon, afterColon, valueText, rest);
  }

  lemma Joined(keyText: string, beforeColon: string, afterColon: string, valueText: string, rest: string)
    ensures keyText + (beforeColon + (":" + (afterColon + (valueText + rest))))
            == "" + (keyText + (beforeColon + (":" + (afterColon + (valueText + ""))))) + rest
  {}

  lemma MembersUnfold(s: string, sofar: Object)
    requires ReadMembers(s, sofar).Got?
    ensures ReadMember(s).Got? && SkipWs(ReadMember(s).rest) != ""
    ensures var member, next := ReadMember(s).value, SkipWs(ReadMember(s).rest);
            var fields := sofar[member.0 := member.1];
            if next[0] == '}' then ReadMembers(s, sofar) == Got(fields, next[1..])
            else next[0] == ',' && ReadMembers(s, sofar) == ReadMembers(SkipWs(next[1..]), fields)
  {
    hide ReadMember, SkipWs;
  }

  lemma TextAfterBlank(m: Member, blank: string)
    requires m.before == "" && AllWs(blank) && m.Proper()
    ensures m.(before := blank).Text() == blank + m.Text() && m.(before := blank).Proper()
  {}

  /** A blank in front of the first member changes nothing. */
  lemma BlankBefore(blank: string, ms: seq<Member>, sofar: Object) returns (all: seq<Member>)
    requires AllWs(blank) && ms != [] && ProperAllMembers(ms) && ms[0].before == ""
    ensures all != [] && ProperAllMembers(all)
    ensures Body(all) == blank + Body(ms) && Collect(all, sofar) == Collect(ms, sofar)
  {
    hide Body, Collect, Member.Text, Member.Proper;
    var first := ms[0].(before := blank);
    all := [first] + ms[1..];
    TextAfterBlank(ms[0], blank);
    assert all[0] == first && all[1..] == ms[1..];
    BodyFront(all);
    BodyFront(ms);
    FrontJoined(blank, ms[0].Text(), if |ms| == 1 then "}" else "," + Body(ms[1..]));
    CollectFront(all, sofar);
    CollectFront(ms, sofar);
    FrontProper(first, ms[1..]);
  }

  lemma CommaJoined(a: string, blank: string, body: string, rest: string)
    ensures a + ("," + (blank + (body + rest))) == a + ("," + (blank + body)) + rest
  {}

  lemma FrontProper(m: Member, ms: seq<Member>)
    requires m.Proper() && ProperAllMembers(ms)
    ensures ProperAllMembers([m] + ms)
  {
    hide Member.Proper;
  }

  lemma {:induction false} BodyRead(s: string, sofar: Object) returns (ms: seq<Member>)
    requires ReadMembers(s, sofar).Got?
    ensures ms != [] && ProperAllMembers(ms) && ms[0].before == ""
    ensures s == Body(ms) + ReadMembers(s, sofar).rest && ReadMembers(s, sofar).value == Collect(ms, sofar)
    decreases |s|
  {
    MembersUnfold(s, sofar);
    hide ReadMember, ReadMembers, SkipWs, ProperAllMembers, Body, Collect;
    var m := MemberRead(s);
    var rest := ReadMember(s).rest;
    var next, fields := SkipWs(rest), sofar[m.key := m.value];
    var after := SkippedBlank(rest);
    var first := m.(after := after);
    AfterBlank(m, after, next);
    assert first.Proper();
    hide Member.Text, Member.Proper;
    if next[0] == '}' {
      ms := [first];
      LastRead(first, next, fields, sofar);
    } else {
      assert next == "," + next[1..];
      var blank := SkippedBlank(next[1..]);
      var tail := BodyRead(SkipWs(next[1..]), fields);
      var more := BlankBefore(blank, tail, fields);
      ms := [first] + more;
      assert ms[1..] == more;
      BodyFront(ms);
      CollectFront(ms, sofar);
      FrontProper(first, more);
      CommaJoined(first.Text(), blank, Body(tail), ReadMembers(s, sofar).rest);
    }
  }

  lemma LastRead(m: Member, next: string, fields: Object, sofar: Object)
    requires m.Proper() && next != "" && next[0] == '}' && fields == sofar[m.key := m.value]
    ensures ProperAllMembers([m]) && Collect([m], sofar) == fields && m.Text() + next == Body([m]) + next[1..]
  {
    assert next == "}" + next[1..];
    assert Collect([m][1..], fields) == fields;
    hide Member.Text, Member.Proper;
  }

  lemma AfterBlank(m: Member, after: string, next: string)
    requires m.after == ""
    ensures m.Text() + (after + next) == m.(after := after).Text() + next
  {}

  // ----- what decodes

  lemma {:induction false} AllBlankIff(s: string)
    ensures SkipWs(s) == "" <==> AllWs(s)
  {
    if s != "" {
      AllBlankIff(s[1..]);
      assert s == [s[0]] + s[1..];
    }
  }

  /** What an opening brace leads to. */
  function ReadBraced(s: string): Read<Object> {
    var inner := SkipWs(s);
    if inner != "" && inner[0] == '}' then Got(map[], inner[1..]) else ReadMembers(inner, map[])
  }

  lemma DecodeBraced(before: string, s: string)
    requires AllWs(before)
    ensures Decode(before + ("{" + s)) ==
              match ReadBraced(s)
              case Got(fields, rest) => if AllWs(rest) then Decoded(fields) else Undecodable
              case Bad => Undecodable
              case Beyond => OutOfScope
  {
    hide ReadMembers;
    SkipBlank(before, "{" + s);
    assert ("{" + s)[1..] == s;
    if ReadBraced(s).Got? { AllBlankIff(ReadBraced(s).rest); }
    hide SkipWs;
  }

  lemma MembersBegin(s: string, sofar: Object)
    requires !ReadMembers(s, sofar).Bad?
    ensures s != "" && s[0] == '"'
  {
    hide ReadChars, ReadValue, SkipWs;
  }

  /** An object, with blanks around it and inside. */
  lemma ObjectDecodes(before: string, ms: seq<Member>, after: string)
    requires AllWs(before) && ms != [] && ProperAllMembers(ms)
    ensures Decode(before + ("{" + (Body(ms) + after)))
            == if AllWs(after) then Decoded(Collect(ms, map[])) else Undecodable
  {
    hide Decode, ReadMembers, SkipWs, Body, Collect, ProperAllMembers;
    DecodeBraced(before, Body(ms) + after);
    ReadBody(ms, after, map[]);
    MembersBegin(SkipWs(Body(ms) + after), map[]);
  }

  lemma EmptyObjectDecodes(before: string, inside: string, after: string)
    requires AllWs(before) && AllWs(inside)
    ensures Decode(before + ("{" + (inside + ("}" + after)))) == if AllWs(after) then Decoded(map[]) else Undecodable
  {
    hide Decode, ReadMembers;
    DecodeBraced(before, inside + ("}" + after));
    SkipBlank(inside, "}" + after);
    hide SkipWs;
    assert ("}" + after)[1..] == after;
  }

  lemma NullDecodes(before: string, after: string)
    requires AllWs(before)
    ensures Decode(before + ("null" + after)) == if AllWs(after) then Decoded(map[]) else Undecodable
  {
    var s := "null" + after;
    SkipBlank(before, s);
    AllBlankIff(after);
    assert s[..4] == "null" && s[4..] == after;
    hide ReadMembers, SkipWs;
  }

  /** A text that begins with neither an object nor `null` does not decode. */
  lemma OtherwiseUndecodable(before: string, s: string)
    requires AllWs(before) && (s != "" ==> !IsWs(s[0]) && s[0] != '{' && !("null" <= s))
    ensures Decode(before + s) == Undecodable
  {
    SkipBlank(before, s);
    hide ReadMembers, SkipWs;
  }

  /** The texts of an object with these fields.  `null` counts as one without any. */
  ghost predicate Describes(text: string, fields: Object) {
    || (exists before, ms, after ::
          && AllWs(before) && ms != [] && ProperAllMembers(ms) && AllWs(after)
          && text == before + ("{" + (Body(ms) + after)) && fields == Collect(ms, map[]))
    || (exists before, inside, after ::
          && AllWs(before) && AllWs(inside) && AllWs(after)
          && text == before + ("{" + (inside + ("}" + after))) && fields == map[])
    || (exists before, after ::
          AllWs(before) && AllWs(after) && text == before + ("null" + after) && fields == map[])
  }

  lemma DescribesObject(text: string, before: string, ms: seq<Member>, after: string)
    requires AllWs(before) && ms != [] && ProperAllMembers(ms) && AllWs(after)
    requires text == before + ("{" + (Body(ms) + after))
    ensures Describes(text, Collect(ms, map[]))
  {
    hide Body, Collect, ProperAllMembers;
  }

  lemma BracedDescribes(text: string, before: string, s: string)
    requires AllWs(before) && text == before + ("{" + s)
    requires ReadBraced(s).Got? && AllWs(ReadBraced(s).rest)
    ensures Describes(text, ReadBraced(s).value)
  {
    hide ReadMembers, SkipWs, Describes;
    var inside := SkippedBlank(s);
    var inner := SkipWs(s);
    if inner != "" && inner[0] == '}' {
      assert s == inside + ("}" + inner[1..]);
      DescribesEmpty(text, before, inside, inner[1..]);
    } else {
      var ms := BodyRead(inner, map[]);
      var all := BlankBefore(inside, ms, map[]);
      hide Body, Collect, ProperAllMembers;
      var rest := ReadMembers(inner, map[]).rest;
      FrontJoined(inside, Body(ms), rest);
      DescribesObject(text, before, all, rest);
    }
  }

  lemma DescribesEmpty(text: string, before: string, inside: string, after: string)
    requires AllWs(before) && AllWs(inside) && AllWs(after) && text == before + ("{" + (inside + ("}" + after)))
    ensures Describes(text, map[])
  {
    hide Body, Collect, ProperAllMembers;
  }

  lemma NullDescribes(text: string)
    requires "null" <= SkipWs(text) && SkipWs(SkipWs(text)[4..]) == ""
    ensures Describes(text, map[])
  {
    hide Body, Collect, ProperAllMembers;
    var before := SkippedBlank(text);
    var s := SkipWs(text);
    AllBlankIff(s[4..]);
    hide SkipWs;
    assert s == "null" + s[4..];
  }

  /** The decoder reads exactly the texts of objects, each to its fields. */
  lemma DecodedIff(text: string, fields: Object)
    ensures Decode(text) == Decoded(fields) <==> Describes(text, fields)
  {
    if Decode(text) == Decoded(fields) {
      DecodedDescribes(text);
    }
    if Describes(text, fields) {
      DescribedDecodes(text, fields);
    }
  }

  lemma DecodedDescribes(text: string)
    requires Decode(text).Decoded?
    ensures Describes(text, Decode(text).fields)
  {
    hide ReadMembers, Describes;
    var before := SkippedBlank(text);
    var s := SkipWs(text);
    if s[0] == '{' {
      assert s == "{" + s[1..];
      hide SkipWs;
      DecodeBraced(before, s[1..]);
      hide Decode;
      BracedDescribes(text, before, s[1..]);
    } else {
      NullDescribes(text);
    }
  }

  lemma DescribedDecodes(text: string, fields: Object)
    requires Describes(text, fields)
    ensures Decode(text) == Decoded(fields)
  {
    hide Decode, Body, Collect, ProperAllMembers, AllWs;
    if before, ms, after :|
      && AllWs(before) && ms != [] && ProperAllMembers(ms) && AllWs(after)
      && text == before + ("{" + (Body(ms) + after)) && fields == Collect(ms, map[]) {
      ObjectDecodes(before, ms, after);
    } else if before, inside, after :|
      && AllWs(before) && AllWs(inside) && AllWs(after)
      && text == before + ("{" + (inside + ("}" + after))) && fields == map[] {
      EmptyObjectDecodes(before, inside, after);
    } else {
      var before, after :|
        AllWs(before) && AllWs(after) && text == before + ("null" + after) && fields == map[];
      NullDecodes(before, after);
    }
  }

  // ----- what the decoder does not follow

  /** The number goes on with a fraction or an exponent, is past 2^53, or is minus zero. */
  predicate OutOfRange(sign: string, digits: string, rest: string)
    requires Unpadded(digits)
  {
    (rest != "" && FractionOrExponent(rest[0])) || NatValue(digits) > MAX_EXACT || (sign == "-" && digits == "0")
  }

  /** Begins a value this model does not read: an object, an array, a number with a
      fraction or an exponent, one past 2^53, or minus zero. */
  ghost predicate Unread(x: string) {
    x != "" &&
    (|| x[0] == '{' || x[0] == '['
     || exists sign, digits, rest ::
          && (sign == "" || sign == "-") && Unpadded(digits) && x == sign + digits + rest
          && (digits == "0" || rest == "" || !IsDigit(rest[0]))
          && OutOfRange(sign, digits, rest))
  }

  lemma {:induction false} CharsNotBeyond(s: string)
    ensures !ReadChars(s).Beyond?
    decreases |s|
  {
    if s != "" && s[0] >= ' ' && s[0] != '"' {
      hide ReadUnicode;
      if ReadOne(s).Got? {
        ReadCharsStep(s);
        CharsNotBeyond(ReadOne(s).rest);
      }
    }
  }

  lemma ReadValueNumber(s: string)
    requires s != "" && (s[0] == '-' || IsDigit(s[0]))
    ensures ReadValue(s) == if s[0] == '-' then ReadMagnitude(s[1..], true) else ReadMagnitude(s, false)
  {
    hide ReadMagnitude, ReadChars;
  }

  lemma NumberUnread(sign: string, digits: string, rest: string)
    requires (sign == "" || sign == "-") && Unpadded(digits)
    requires digits == "0" || rest == "" || !IsDigit(rest[0])
    requires OutOfRange(sign, digits, rest)
    ensures ReadValue(sign + digits + rest) == Beyond
  {
    hide ReadMagnitude, ReadValue, NatValue, Digits, ReadChars, DigitRun;
    var s := sign + digits + rest;
    DigitsOfNatValue(digits);
    MagnitudeOf(digits, rest, sign == "-");
    if sign == "-" {
      assert s[1..] == digits + rest && s[0] == '-';
    } else {
      assert s == digits + rest && s[0] == digits[0];
    }
    ReadValueNumber(s);
  }

  lemma NumberBeyond(s: string) returns (sign: string, digits: string, rest: string)
    requires ReadNumber(s) == Beyond
    ensures (sign == "" || sign == "-") && Unpadded(digits) && s == sign + digits + rest
    ensures digits == "0" || rest == "" || !IsDigit(rest[0])
    ensures OutOfRange(sign, digits, rest)
  {
    hide ReadNumber, ReadMagnitude, DigitRun, NatValue, Digits;
    NumberIsMagnitude(s);
    var negative := s != "" && s[0] == '-';
    sign := if negative then "-" else "";
    var t := if negative then s[1..] else s;
    assert s == sign + t;
    digits, rest := MagnitudeTaken(t, negative);
    DigitsOfNatValue(digits);
  }

  lemma ValueBeyondIff(x: string)
    ensures ReadValue(x) == Beyond <==> Unread(x)
  {
    hide ReadChars, ReadNumber, NatValue;
    if ReadValue(x) == Beyond && x[0] != '{' && x[0] != '[' {
      if x[0] == '"' {
        CharsNotBeyond(x[1..]);
      } else {
        var sign, digits, rest := NumberBeyond(x);
      }
    }
    if Unread(x) && x[0] != '{' && x[0] != '[' {
      var sign, digits, rest :|
        && (sign == "" || sign == "-") && Unpadded(digits) && x == sign + digits + rest
        && (digits == "0" || rest == "" || !IsDigit(rest[0]))
        && OutOfRange(sign, digits, rest);
      NumberUnread(sign, digits, rest);
    }
  }

  /** A key and its colon. */
  datatype Opening = Opening(before: string, keyText: string, key: string, beforeColon: string, afterColon: string) {
    ghost predicate Proper() { AllWs(before) && StringDenotes(keyText, key) && AllWs(beforeColon) && AllWs(afterColon) }

    function Then(value: string): string {
      before + (keyText + (beforeColon + (":" + (afterColon + value))))
    }
  }

  /** Members each followed by a comma. */
  function Lead(ms: seq<Member>): string {
    if ms == [] then "" else ms[0].Text() + ("," + Lead(ms[1..]))
  }

  lemma OpeningBeyond(o: Opening, x: string, sofar: Object)
    requires o.Proper() && ReadValue(x) == Beyond && x != "" && !IsWs(x[0])
    ensures ReadMembers(SkipWs(o.Then(x)), sofar) == Beyond
  {
    hide ReadChars, ReadValue, StringDenotes, SkipWs;
    var keyed := o.keyText + (o.beforeColon + (":" + (o.afterColon + x)));
    ReadKeyed(o.keyText, o.key, o.beforeColon, o.afterColon, x);
    SkipBlank(o.before, keyed);
    hide ReadMember;
  }

  lemma {:induction false} LeadBeyond(ms: seq<Member>, o: Opening, x: string, sofar: Object)
    requires ProperAllMembers(ms) && o.Proper() && ReadValue(x) == Beyond && x != "" && !IsWs(x[0])
    ensures ReadMembers(SkipWs(Lead(ms) + o.Then(x)), sofar) == Beyond
  {
    hide ReadMembers, SkipWs, ReadValue, Member.Text, Member.Proper, Opening.Then, Opening.Proper;
    if ms == [] {
      OpeningBeyond(o, x, sofar);
      assert Lead(ms) + o.Then(x) == o.Then(x);
    } else {
      LeadBeyond(ms[1..], o, x, sofar[ms[0].key := ms[0].value]);
      CommaFront(ms[0].Text(), Lead(ms[1..]), o.Then(x));
      ReadNext(ms[0], Lead(ms[1..]) + o.Then(x), sofar);
    }
  }

  /** An object whose next value is not read. */
  ghost predicate Unfollowed(s: string) {
    exists ms, o: Opening, x :: ProperAllMembers(ms) && o.Proper() && Unread(x) && s == Lead(ms) + o.Then(x)
  }

  lemma MemberBeyond(s: string) returns (o: Opening, x: string)
    requires ReadMember(s) == Beyond
    ensures o.Proper() && o.before == "" && Unread(x) && s == o.Then(x)
  {
    hide ReadChars, ReadValue, SkipWs, StringDenotes, Unread;
    CharsNotBeyond(s[1..]);
    var keyText, beforeColon, afterColon := KeyRead(s);
    x := SkipWs(SkipWs(ReadChars(s[1..]).rest)[1..]);
    ValueBeyondIff(x);
    o := Opening("", keyText, ReadChars(s[1..]).value, beforeColon, afterColon);
  }

  lemma MembersBeyond(s: string, sofar: Object)
    requires ReadMembers(s, sofar) == Beyond
    ensures ReadMember(s) == Beyond ||
            (ReadMember(s).Got? && var next := SkipWs(ReadMember(s).rest);
               next != "" && next[0] == ',' &&
               ReadMembers(SkipWs(next[1..]), sofar[ReadMember(s).value.0 := ReadMember(s).value.1]) == Beyond)
  {
    hide ReadMember, SkipWs;
  }

  lemma LeadFront(ms: seq<Member>)
    requires ms != []
    ensures Lead(ms) == ms[0].Text() + ("," + Lead(ms[1..]))
  {}

  lemma BlankMember(m: Member, blank: string)
    requires AllWs(blank) && m.Proper()
    ensures m.(before := blank + m.before).Text() == blank + m.Text() && m.(before := blank + m.before).Proper()
  {}

  lemma BlankOpening(o: Opening, blank: string, x: string)
    requires AllWs(blank) && o.Proper()
    ensures o.(before := blank + o.before).Then(x) == blank + o.Then(x) && o.(before := blank + o.before).Proper()
  {}

  lemma UnfollowedBlank(blank: string, s: string)
    requires AllWs(blank) && Unfollowed(s)
    ensures Unfollowed(blank + s)
  {
    hide Unread, Member.Text, Member.Proper, Opening.Then, Opening.Proper;
    var ms: seq<Member>, o: Opening, x :| ProperAllMembers(ms) && o.Proper() && Unread(x) && s == Lead(ms) + o.Then(x);
    if ms == [] {
      BlankOpening(o, blank, x);
      assert s == o.Then(x);
      OpeningUnfollowed(o.(before := blank + o.before), x);
    } else {
      BlankMember(ms[0], blank);
      var all := [ms[0].(before := blank + ms[0].before)] + ms[1..];
      assert all[1..] == ms[1..];
      LeadFront(all);
      LeadFront(ms);
      FrontProper(all[0], ms[1..]);
      hide Lead;
      FrontJoined(blank, ms[0].Text(), "," + Lead(ms[1..]));
      FrontJoined(blank, Lead(ms), o.Then(x));
    }
  }

  lemma UnfollowedBehind(m: Member, s: string)
    requires m.Proper() && Unfollowed(s)
    ensures Unfollowed(m.Text() + ("," + s))
  {
    hide Unread, Member.Text, Member.Proper, Opening.Then, Opening.Proper;
    var ms: seq<Member>, o: Opening, x :| ProperAllMembers(ms) && o.Proper() && Unread(x) && s == Lead(ms) + o.Then(x);
    var all := [m] + ms;
    assert all[1..] == ms;
    LeadFront(all);
    FrontProper(m, ms);
    hide Lead;
    CommaFront(m.Text(), Lead(ms), o.Then(x));
  }

  lemma {:induction false} BeyondUnfollowed(s: string, sofar: Object)
    requires ReadMembers(s, sofar) == Beyond
    ensures Unfollowed(s)
    decreases |s|
  {
    MembersBeyond(s, sofar);
    hide ReadMembers, ReadMember, SkipWs, Unfollowed;
    if ReadMember(s) == Beyond {
      var o, x := MemberBeyond(s);
      OpeningUnfollowed(o, x);
    } else {
      var m := MemberRead(s);
      var rest := ReadMember(s).rest;
      var after := SkippedBlank(rest);
      var next := SkipWs(rest);
      AfterBlank(m, after, next);
      var first := m.(after := after);
      assert first.Proper();
      hide Member.Text, Member.Proper;
      assert next == "," + next[1..];
      var blank := SkippedBlank(next[1..]);
      BeyondUnfollowed(SkipWs(next[1..]), sofar[m.key := m.value]);
      UnfollowedBlank(blank, SkipWs(next[1..]));
      UnfollowedBehind(first, next[1..]);
    }
  }

  lemma OpeningUnfollowed(o: Opening, x: string)
    requires o.Proper() && Unread(x)
    ensures Unfollowed(o.Then(x))
  {
    hide Unread, Opening.Then, Opening.Proper;
    assert Lead([]) + o.Then(x) == o.Then(x);
  }

  lemma UnreadBegins(x: string)
    requires Unread(x)
    ensures x != "" && !IsWs(x[0]) && ReadValue(x) == Beyond
  {
    ValueBeyondIff(x);
    hide ReadValue, NatValue;
    if x[0] != '{' && x[0] != '[' {
      var sign, digits, rest :| (sign == "" || sign == "-") && Unpadded(digits) && x == sign + digits + rest;
      assert x[0] == if sign == "-" then '-' else digits[0];
    }
  }

  lemma UnfollowedBeyond(s: string)
    requires Unfollowed(s)
    ensures ReadMembers(SkipWs(s), map[]) == Beyond
  {
    hide ReadMembers, SkipWs, Unread;
    var ms, o: Opening, x :| ProperAllMembers(ms) && o.Proper() && Unread(x) && s == Lead(ms) + o.Then(x);
    UnreadBegins(x);
    LeadBeyond(ms, o, x, map[]);
  }

  /** It leaves exactly those texts undecided in which the members before the first value
      it does not read are proper. */
  lemma OutOfScopeIff(text: string)
    ensures Decode(text).OutOfScope? <==>
              exists before, s :: AllWs(before) && text == before + ("{" + s) && Unfollowed(s)
  {
    if Decode(text).OutOfScope? {
      var before, s := OutOfScopeBraced(text);
      assert Unfollowed(s);
    }
    hide Decode, Unfollowed, ReadMembers, SkipWs;
    forall before, s | AllWs(before) && text == before + ("{" + s) && Unfollowed(s) ensures Decode(text).OutOfScope? {
      DecodeBraced(before, s);
      UnfollowedBeyond(s);
      MembersBegin(SkipWs(s), map[]);
    }
  }

  lemma OutOfScopeBraced(text: string) returns (before: string, s: string)
    requires Decode(text).OutOfScope?
    ensures AllWs(before) && text == before + ("{" + s) && Unfollowed(s)
  {
    hide ReadMembers, Unfollowed;
    before := SkippedBlank(text);
    var t := SkipWs(text);
    assert t == "{" + t[1..];
    s := t[1..];
    var inner := SkipWs(s);
    var inside := SkippedBlank(s);
    hide Decode, SkipWs;
    BeyondUnfollowed(inner, map[]);
    UnfollowedBlank(inside, inner);
  }
}
