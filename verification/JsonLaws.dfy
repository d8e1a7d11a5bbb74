/** Decoding undoes every layout of a flat object, `json.Marshal`'s and the RDS
    provider's alike; what the marshalled text looks like; and when `%v` prints an
    integer the way JSON wrote it. */
module JsonLaws {
  import opened Text
  import opened Json
  import opened JsonSyntax
  import opened JsonObjects

  // ----- written strings

  /** How `json.Marshal` spells a character. */
  function SpellingOf(c: char): (sp: Spelling)
    ensures sp.Proper() && !sp.Lone? && sp.Char() == c && sp.Text() == EscapeChar(c)
  {
    if EscapeChar(c) == [c] then Verbatim(c)
    else if |EscapeChar(c)| == 2 then Short(EscapeChar(c)[1])
    else
      HexNumberOfDigits(c as int);
      Code(HexDigits(c as int))
  }

  lemma HexNumberOfDigits(u: nat)
    requires u < 0x1_0000
    ensures FourHex(HexDigits(u)) && HexNumber(HexDigits(u)) == u
  {
    hide IsHex, HexValue;
  }

  lemma FrontSpelling(sp: Spelling, sps: seq<Spelling>)
    requires sp.Proper() && !sp.Lone? && ProperAll(sps)
    ensures ProperAll([sp] + sps) && Spelled([sp] + sps) == sp.Text() + Spelled(sps)
    ensures Chars([sp] + sps) == [sp.Char()] + Chars(sps)
  {
    assert ([sp] + sps)[1..] == sps;
  }

  lemma {:induction false} EscapeSpelled(s: string) returns (sps: seq<Spelling>)
    ensures ProperAll(sps) && Spelled(sps) == Escape(s) && Chars(sps) == s
  {
    if s == "" {
      sps := [];
    } else {
      var more := EscapeSpelled(s[1..]);
      hide EscapeChar;
      FrontSpelling(SpellingOf(s[0]), more);
      sps := [SpellingOf(s[0])] + more;
      assert s == [s[0]] + s[1..];
    }
  }

  lemma {:induction false} PlainSpelled(s: string) returns (sps: seq<Spelling>)
    requires Plain(s)
    ensures ProperAll(sps) && Spelled(sps) == s && Chars(sps) == s
  {
    if s == "" {
      sps := [];
    } else {
      var more := PlainSpelled(s[1..]);
      FrontSpelling(Verbatim(s[0]), more);
      sps := [Verbatim(s[0])] + more;
      assert s == [s[0]] + s[1..];
    }
  }

  /** The layout writes s so that it can be read back. */
  predicate Legible(s: string, layout: Layout) { layout.escaped || Plain(s) }

  lemma StringTextDenotes(s: string, layout: Layout)
    requires Legible(s, layout)
    ensures StringDenotes("\"" + StringText(s, layout) + "\"", s)
  {
    var sps: seq<Spelling>;
    if layout.escaped { sps := EscapeSpelled(s); } else { sps := PlainSpelled(s); }
  }

  predicate LegibleValue(v: Value, layout: Layout) { FlatValue(v) && (v.Str? ==> Legible(v.s, layout)) }

  lemma ValueTextDenotes(v: Value, layout: Layout)
    requires LegibleValue(v, layout)
    ensures Denotes(ValueText(v, layout), v)
  {
    if v.Str? { StringTextDenotes(v.s, layout); }
    hide Decimal, StringDenotes;
  }

  // ----- written objects

  predicate LegibleMembers(m: Object, keys: seq<string>, layout: Layout)
    requires Writable(m, keys)
  {
    forall i :: 0 <= i < |keys| ==> Legible(keys[i], layout) && LegibleValue(m[keys[i]], layout)
  }

  /** The members of m named by keys. */
  function Select(m: Object, keys: seq<string>): Object {
    map k | k in m && k in keys :: m[k]
  }

  function FormOf(key: string, v: Value, layout: Layout, before: string, after: string): Member {
    Member(before, "\"" + StringText(key, layout) + "\"", key, layout.beforeColon, layout.afterColon,
           ValueText(v, layout), v, after)
  }

  /** What the writer writes, member by member. */
  function Forms(m: Object, keys: seq<string>, layout: Layout, before: string): (ms: seq<Member>)
    requires Writable(m, keys)
    ensures |ms| == |keys|
    ensures forall i :: 0 <= i < |keys| ==>
              && ms[i].key == keys[i] && ms[i].value == m[keys[i]]
              && ms[i].before == (if i == 0 then before else layout.afterComma)
              && ms[i].beforeColon == layout.beforeColon && ms[i].afterColon == layout.afterColon
              && ms[i].after == (if i == |keys| - 1 then layout.close else layout.beforeComma)
  {
    if keys == [] then []
    else
      [FormOf(keys[0], m[keys[0]], layout, before, if |keys| == 1 then layout.close else layout.beforeComma)]
      + Forms(m, keys[1..], layout, layout.afterComma)
  }

  lemma FormText(key: string, v: Value, layout: Layout, before: string, after: string)
    ensures FormOf(key, v, layout, before, after).Text() == before + (MemberText(key, v, layout) + after)
  {}

  lemma FormProper(key: string, v: Value, layout: Layout, before: string, after: string)
    requires layout.Blank() && AllWs(before) && AllWs(after) && Legible(key, layout) && LegibleValue(v, layout)
    ensures FormOf(key, v, layout, before, after).Proper()
  {
    hide StringDenotes, Denotes, StringText, ValueText;
    StringTextDenotes(key, layout);
    ValueTextDenotes(v, layout);
  }

  lemma LastJoined(before: string, t: string, close: string)
    ensures before + (t + close) + "}" == before + (t + (close + "}"))
  {}

  lemma NextJoined(before: string, t: string, beforeComma: string, afterComma: string, more: string)
    ensures before + (t + beforeComma) + ("," + (afterComma + more))
            == before + (t + (beforeComma + "," + (afterComma + more)))
  {}

  lemma WriteMembersFront(m: Object, keys: seq<string>, layout: Layout)
    requires keys != [] && Writable(m, keys)
    ensures WriteMembers(m, keys, layout) == MemberText(keys[0], m[keys[0]], layout)
              + if |keys| == 1 then layout.close + "}"
                else layout.beforeComma + "," + (layout.afterComma + WriteMembers(m, keys[1..], layout))
  {}

  lemma {:induction false} FormsText(m: Object, keys: seq<string>, layout: Layout, before: string)
    requires keys != [] && Writable(m, keys)
    ensures Body(Forms(m, keys, layout, before)) == before + WriteMembers(m, keys, layout)
  {
    var ms := Forms(m, keys, layout, before);
    var after := if |keys| == 1 then layout.close else layout.beforeComma;
    assert ms[0] == FormOf(keys[0], m[keys[0]], layout, before, after);
    assert ms[1..] == Forms(m, keys[1..], layout, layout.afterComma);
    hide Forms, Body, MemberText, WriteMembers;
    BodyFront(ms);
    WriteMembersFront(m, keys, layout);
    FormText(keys[0], m[keys[0]], layout, before, after);
    hide FormOf, Member.Text;
    var t := MemberText(keys[0], m[keys[0]], layout);
    if |keys| == 1 {
      LastJoined(before, t, layout.close);
    } else {
      FormsText(m, keys[1..], layout, layout.afterComma);
      NextJoined(before, t, layout.beforeComma, layout.afterComma, WriteMembers(m, keys[1..], layout));
    }
  }

  lemma FormsFront(m: Object, keys: seq<string>, layout: Layout, before: string)
    requires keys != [] && Writable(m, keys)
    ensures Forms(m, keys, layout, before)
            == [FormOf(keys[0], m[keys[0]], layout, before, if |keys| == 1 then layout.close else layout.beforeComma)]
               + Forms(m, keys[1..], layout, layout.afterComma)
  {}

  lemma {:induction false} FormsProper(m: Object, keys: seq<string>, layout: Layout, before: string)
    requires Writable(m, keys) && layout.Blank() && LegibleMembers(m, keys, layout) && AllWs(before)
    ensures ProperAllMembers(Forms(m, keys, layout, before))
  {
    if keys != [] {
      FormsFront(m, keys, layout, before);
      hide Member.Proper, FormOf, Forms, Legible, LegibleValue, ProperAllMembers, AllWs;
      var after := if |keys| == 1 then layout.close else layout.beforeComma;
      FormProper(keys[0], m[keys[0]], layout, before, after);
      FormsProper(m, keys[1..], layout, layout.afterComma);
      FrontProper(FormOf(keys[0], m[keys[0]], layout, before, after), Forms(m, keys[1..], layout, layout.afterComma));
    }
  }

  lemma SelectStep(m: Object, keys: seq<string>, sofar: Object)
    requires keys != [] && keys[0] in m
    ensures sofar[keys[0] := m[keys[0]]] + Select(m, keys[1..]) == sofar + Select(m, keys)
  {}

  lemma {:induction false} FormsCollect(m: Object, keys: seq<string>, layout: Layout, before: string, sofar: Object)
    requires Writable(m, keys)
    ensures Collect(Forms(m, keys, layout, before), sofar) == sofar + Select(m, keys)
  {
    var ms := Forms(m, keys, layout, before);
    if keys == [] {
      assert Select(m, keys) == map[];
    } else {
      assert ms[1..] == Forms(m, keys[1..], layout, layout.afterComma);
      FormsCollect(m, keys[1..], layout, layout.afterComma, sofar[keys[0] := m[keys[0]]]);
      SelectStep(m, keys, sofar);
      CollectFront(ms, sofar);
      hide Collect, Select;
    }
  }

  lemma BracedJoined(before: string, open: string, body: string, after: string)
    ensures before + ("{" + open + body) + after == before + ("{" + (open + body + after))
    ensures before + ("{" + open + body) + after == before + ("{" + (open + (body + after)))
  {}

  /** Reading back any layout of any members gives those members, whatever their
      order, even if a key is listed twice, and whatever blanks surround the object;
      anything else behind the object makes the text undecodable. */
  lemma DecodeWritten(m: Object, keys: seq<string>, layout: Layout, before: string, after: string)
    requires Writable(m, keys) && layout.Blank() && LegibleMembers(m, keys, layout) && AllWs(before)
    ensures Decode(before + Write(m, keys, layout) + after)
            == if AllWs(after) then Decoded(Select(m, keys)) else Undecodable
  {
    hide Decode, WriteMembers, Body, Collect, Forms;
    if keys == [] {
      BracedJoined(before, layout.open, "}", after);
      EmptyObjectDecodes(before, layout.open, after);
      assert Select(m, keys) == map[];
    } else {
      var ms := Forms(m, keys, layout, layout.open);
      FormsText(m, keys, layout, layout.open);
      FormsProper(m, keys, layout, layout.open);
      FormsCollect(m, keys, layout, layout.open, map[]);
      ObjectDecodes(before, ms, after);
      BracedJoined(before, layout.open, WriteMembers(m, keys, layout), after);
      assert map[] + Select(m, keys) == Select(m, keys);
    }
  }

  lemma SortedMembers(m: Object)
    requires Flat(m)
    ensures var keys := SortedKeys(m.Keys);
            && Writable(m, keys) && LegibleMembers(m, keys, COMPACT) && Sorted(keys)
            && COMPACT.Blank() && Select(m, keys) == m
  {}

  /** `json.Unmarshal` undoes `json.Marshal` on every flat object. */
  lemma DecodeMarshal(m: Object)
    requires Flat(m)
    ensures Decode(Marshal(m)) == Decoded(m)
  {
    SortedMembers(m);
    hide Decode, Write, Select, SortedKeys;
    DecodeWritten(m, SortedKeys(m.Keys), COMPACT, "", "");
    assert "" + Marshal(m) + "" == Marshal(m);
  }

  // ----- what a marshalled text looks like

  /** In the order of code points: a is a proper front of b, or less where they first differ. */
  ghost predicate Ascends(a: string, b: string) {
    a < b || exists i :: 0 <= i < |a| && i < |b| && a[..i] == b[..i] && a[i] < b[i]
  }

  lemma FrontsAgree(a: string, b: string)
    requires a != "" && b != ""
    ensures forall i :: 0 < i <= |a| && i <= |b| && a[..i] == b[..i] ==> a[0] == b[0]
  {
    forall i | 0 < i <= |a| && i <= |b| && a[..i] == b[..i] ensures a[0] == b[0] {
      assert a[..i][0] == b[..i][0];
    }
  }

  lemma {:induction false} LexLeqIff(a: string, b: string)
    ensures LexLeq(a, b) <==> a == b || Ascends(a, b)
  {
    if a != "" && b != "" {
      FrontsAgree(a, b);
      assert a[..0] == b[..0];
      if a[0] == b[0] {
        LexLeqIff(a[1..], b[1..]);
        AscendsBehind(a, b);
      }
    }
  }

  lemma AscendsBehind(a: string, b: string)
    requires a != "" && b != "" && a[0] == b[0]
    ensures Ascends(a, b) <==> Ascends(a[1..], b[1..])
    ensures a == b <==> a[1..] == b[1..]
  {
    assert a == [a[0]] + a[1..] && b == [b[0]] + b[1..];
    if i :| 0 <= i < |a[1..]| && i < |b[1..]| && a[1..][..i] == b[1..][..i] && a[1..][i] < b[1..][i] {
      assert a[..i + 1] == [a[0]] + a[1..][..i] && b[..i + 1] == [b[0]] + b[1..][..i];
    }
    if i :| 0 <= i < |a| && i < |b| && a[..i] == b[..i] && a[i] < b[i] {
      assert a[1..][..i - 1] == a[..i][1..] && b[1..][..i - 1] == b[..i][1..];
    }
  }

  /** No blank anywhere, and keys in ascending order. */
  ghost predicate Canonical(ms: seq<Member>) {
    && (forall i :: 0 <= i < |ms| ==> ms[i].before == ms[i].beforeColon == ms[i].afterColon == ms[i].after == "")
    && forall i, j :: 0 <= i < j < |ms| ==> Ascends(ms[i].key, ms[j].key)
  }

  lemma FormsCanonical(m: Object, keys: seq<string>)
    requires Writable(m, keys) && Sorted(keys)
    ensures Canonical(Forms(m, keys, COMPACT, ""))
  {
    hide Ascends, LexLeq;
    var ms := Forms(m, keys, COMPACT, "");
    hide Forms;
    forall i, j | 0 <= i < j < |ms| ensures Ascends(ms[i].key, ms[j].key) { LexLeqIff(keys[i], keys[j]); }
  }

  lemma MarshalText(m: Object)
    ensures Writable(m, SortedKeys(m.Keys))
    ensures Marshal(m) == if SortedKeys(m.Keys) == [] then "{}"
                          else "{" + ("" + WriteMembers(m, SortedKeys(m.Keys), COMPACT))
  {
    hide WriteMembers, SortedKeys;
  }

  lemma EmptyPlus(m: Object)
    ensures map[] + m == m
  {}

  lemma CompactForms(m: Object, keys: seq<string>) returns (ms: seq<Member>)
    requires Writable(m, keys) && LegibleMembers(m, keys, COMPACT) && Sorted(keys) && COMPACT.Blank()
    ensures ProperAllMembers(ms) && Canonical(ms) && Collect(ms, map[]) == map[] + Select(m, keys)
    ensures if keys == [] then ms == [] else ms != [] && Body(ms) == "" + WriteMembers(m, keys, COMPACT)
  {
    ms := Forms(m, keys, COMPACT, "");
    FormsProper(m, keys, COMPACT, "");
    FormsCanonical(m, keys);
    FormsCollect(m, keys, COMPACT, "", map[]);
    hide Forms, WriteMembers, Body, Collect, Canonical, ProperAllMembers, Select, LegibleMembers, Sorted;
    if keys != [] { FormsText(m, keys, COMPACT, ""); }
  }

  /** `json.Marshal` writes every member once, the keys in ascending order, and no blank
      outside the strings. */
  lemma MarshalCanonical(m: Object) returns (ms: seq<Member>)
    requires Flat(m)
    ensures Marshal(m) == if ms == [] then "{}" else "{" + Body(ms)
    ensures ProperAllMembers(ms) && Canonical(ms) && Collect(ms, map[]) == m
  {
    hide Marshal, SortedKeys, Writable, WriteMembers, Body, Collect, Canonical, ProperAllMembers;
    hide Select, LegibleMembers, Sorted, Flat;
    MarshalText(m);
    SortedMembers(m);
    ms := CompactForms(m, SortedKeys(m.Keys));
    EmptyPlus(m);
  }

  /** Characters that HTML or JavaScript would take for their own, or that control. */
  predicate Harmless(c: char) {
    c >= ' ' && c != '<' && c != '>' && c != '&' && c != '\U{2028}' && c != '\U{2029}'
  }

  predicate AllHarmless(t: string) { forall i :: 0 <= i < |t| ==> Harmless(t[i]) }

  lemma EscapeCharHarmless(c: char)
    ensures AllHarmless(EscapeChar(c))
    ensures Harmless(c) && c != '"' && c != '\\' ==> EscapeChar(c) == [c]
  {
    hide HexValue;
  }

  lemma {:induction false} EscapeHarmless(s: string)
    ensures AllHarmless(Escape(s))
  {
    if s != "" {
      EscapeCharHarmless(s[0]);
      EscapeHarmless(s[1..]);
      hide EscapeChar;
    }
  }

  lemma HarmlessJoined(a: string, b: string)
    requires AllHarmless(a) && AllHarmless(b)
    ensures AllHarmless(a + b)
  {}

  lemma QuotedHarmless(s: string)
    requires AllHarmless(s)
    ensures AllHarmless("\"" + s + "\"")
  {}

  lemma ValueHarmless(v: Value)
    requires FlatValue(v)
    ensures AllHarmless(ValueText(v, COMPACT))
  {
    hide Escape, Decimal;
    match v
    case Str(s) =>
      EscapeHarmless(s);
      hide AllHarmless;
      QuotedHarmless(Escape(s));
    case Int(n) => assert forall i :: 0 <= i < |Decimal(n)| ==> Harmless(Decimal(n)[i]);
    case _ =>
  }

  lemma KeyAndValue(key: string, v: string)
    ensures "\"" + key + "\"" + "" + ":" + "" + v == ("\"" + key + "\"") + (":" + v)
  {}

  lemma MemberHarmless(key: string, v: Value)
    requires FlatValue(v)
    ensures AllHarmless(MemberText(key, v, COMPACT))
  {
    assert AllHarmless(":");
    hide Escape, ValueText, AllHarmless;
    EscapeHarmless(key);
    QuotedHarmless(Escape(key));
    ValueHarmless(v);
    HarmlessJoined(":", ValueText(v, COMPACT));
    HarmlessJoined("\"" + Escape(key) + "\"", ":" + ValueText(v, COMPACT));
    KeyAndValue(Escape(key), ValueText(v, COMPACT));
  }

  lemma {:induction false} MembersHarmless(m: Object, keys: seq<string>)
    requires keys != [] && Writable(m, keys) && Flat(m)
    ensures AllHarmless(WriteMembers(m, keys, COMPACT))
  {
    MemberHarmless(keys[0], m[keys[0]]);
    WriteMembersFront(m, keys, COMPACT);
    if |keys| > 1 { MembersHarmless(m, keys[1..]); }
    hide WriteMembers, MemberText;
  }

  /** Nothing that `json.Marshal` writes of a flat object can be taken for markup. */
  lemma MarshalHarmless(m: Object)
    requires Flat(m)
    ensures AllHarmless(Marshal(m))
  {
    var keys := SortedKeys(m.Keys);
    if keys != [] { MembersHarmless(m, keys); }
    hide WriteMembers, SortedKeys;
  }

  // ----- where a decoded string stands in the text

  /** What a string literal that denotes v may look like between its quotes. */
  predicate Spells(raw: string, v: string) {
    && (forall i :: 0 <= i < |raw| ==> raw[i] >= ' ')
    && (forall i :: 0 <= i < |raw| && raw[i] == '"' ==> i > 0 && raw[i - 1] == '\\')
    && |v| <= |raw|
    && (Plain(v) || ('\\' in raw && |v| < |raw|))
  }

  lemma PlainFront(c: char, raw: string, v: string)
    requires Spells(raw, v) && c >= ' ' && c != '"' && c != '\\'
    ensures Spells([c] + raw, [c] + v)
  {
    assert forall i :: 0 < i < |[c] + raw| ==> ([c] + raw)[i] == raw[i - 1];
    assert Plain(v) ==> Plain([c] + v);
  }

  lemma EscapedFront(escape: string, raw: string, c: char, v: string)
    requires Spells(raw, v) && |escape| >= 2 && escape[0] == '\\'
    requires forall i :: 0 <= i < |escape| ==> escape[i] >= ' ' && (escape[i] == '"' ==> i == 1)
    ensures Spells(escape + raw, [c] + v)
  {
    var all := escape + raw;
    assert all[0] == '\\';
    assert forall i :: 0 <= i < |escape| ==> all[i] == escape[i];
    assert forall i :: |escape| <= i < |all| ==> all[i] == raw[i - |escape|];
  }

  lemma SpellingFront(sp: Spelling, raw: string, v: string)
    requires sp.Proper() && Spells(raw, v)
    ensures Spells(sp.Text() + raw, [sp.Char()] + v)
  {
    hide Spells, HexNumber;
    if sp.Verbatim? {
      PlainFront(sp.c, raw, v);
    } else {
      EscapedFront(sp.Text(), raw, sp.Char(), v);
    }
  }

  lemma {:induction false} SpelledSpells(sps: seq<Spelling>)
    requires ProperAll(sps)
    ensures Spells(Spelled(sps), Chars(sps))
  {
    if sps != [] {
      SpelledSpells(sps[1..]);
      hide Spells;
      SpellingFront(sps[0], Spelled(sps[1..]), Chars(sps[1..]));
    }
  }

  /** Some string literal of the text may denote v. */
  ghost predicate Quotes(text: string, v: string) {
    exists before, raw, after :: Literal(text, before, raw, after) && Spells(raw, v)
  }

  predicate Literal(text: string, before: string, raw: string, after: string) {
    text == before + "\"" + raw + "\"" + after
  }

  lemma Around(a: string, before: string, raw: string, after: string, b: string)
    ensures a + (before + "\"" + raw + "\"" + after) + b == (a + before) + "\"" + raw + "\"" + (after + b)
  {}

  lemma QuotesInside(a: string, t: string, b: string, v: string)
    requires Quotes(t, v)
    ensures Quotes(a + t + b, v)
  {
    hide Spells;
    var before, raw, after :| Literal(t, before, raw, after) && Spells(raw, v);
    Around(a, before, raw, after, b);
    assert Literal(a + t + b, a + before, raw, after + b);
  }

  lemma NoneAround(raw: string)
    ensures Literal("\"" + raw + "\"", "", raw, "")
  {}

  lemma DenotedQuotes(t: string, v: string)
    requires StringDenotes(t, v)
    ensures Quotes(t, v)
  {
    var sps :| ProperAll(sps) && t == "\"" + Spelled(sps) + "\"" && v == Chars(sps);
    hide Spells, Spelled, ProperAll, Chars, Literal;
    SpelledSpells(sps);
    NoneAround(Spelled(sps));
  }

  lemma ValueInMember(m: Member) returns (a: string, b: string)
    ensures m.Text() == a + m.valueText + b
  {
    a, b := m.before + (m.keyText + (m.beforeColon + (":" + m.afterColon))), m.after;
  }

  /** Every member that decides a key stands in the body. */
  lemma {:induction false} CollectedFrom(ms: seq<Member>, sofar: Object, key: string)
    requires key in Collect(ms, sofar)
    ensures (key in sofar && Collect(ms, sofar)[key] == sofar[key]) ||
            exists i :: 0 <= i < |ms| && ms[i].key == key && ms[i].value == Collect(ms, sofar)[key]
  {
    if ms != [] {
      CollectedFrom(ms[1..], sofar[ms[0].key := ms[0].value], key);
    }
  }

  lemma {:induction false} MemberInBody(ms: seq<Member>, i: nat) returns (a: string, b: string)
    requires i < |ms|
    ensures Body(ms) == a + ms[i].Text() + b
  {
    BodyFront(ms);
    hide Body, Member.Text;
    if i == 0 {
      a, b := "", if |ms| == 1 then "}" else "," + Body(ms[1..]);
    } else {
      var x, y := MemberInBody(ms[1..], i - 1);
      a, b := ms[0].Text() + ("," + x), y;
      BodyShift(ms[0].Text(), x, ms[i].Text(), y);
    }
  }

  lemma BodyShift(front: string, x: string, t: string, y: string)
    ensures front + ("," + (x + t + y)) == front + ("," + x) + t + y
  {}

  lemma BodyQuotes(ms: seq<Member>, i: nat)
    requires i < |ms| && ms[i].Proper() && ms[i].value.Str?
    ensures Quotes(Body(ms), ms[i].value.s)
  {
    hide Body, Quotes, StringDenotes;
    DenotedQuotes(ms[i].valueText, ms[i].value.s);
    var a, b := ValueInMember(ms[i]);
    QuotesInside(a, ms[i].valueText, b, ms[i].value.s);
    hide Member.Text;
    var x, y := MemberInBody(ms, i);
    QuotesInside(x, ms[i].Text(), y, ms[i].value.s);
  }

  /** A decoded object that is not empty was collected from members of the text. */
  lemma DecodedMember(text: string, key: string) returns (ms: seq<Member>, i: nat, before: string, after: string)
    requires Decode(text).Decoded? && key in Decode(text).fields
    ensures ms != [] && ProperAllMembers(ms) && text == before + ("{" + (Body(ms) + after)) && i < |ms|
    ensures ms[i].key == key && ms[i].value == Decode(text).fields[key]
  {
    hide Decode, Body, ProperAllMembers;
    DecodedDescribes(text);
    var b, all: seq<Member>, a :|
      && AllWs(b) && all != [] && ProperAllMembers(all) && AllWs(a)
      && text == b + ("{" + (Body(all) + a)) && Decode(text).fields == Collect(all, map[]);
    CollectedFrom(all, map[], key);
    hide Collect;
    var n :| 0 <= n < |all| && all[n].key == key && all[n].value == Decode(text).fields[key];
    ms, i, before, after := all, n, b, a;
  }

  /** Every string of a decoded object is spelled by a literal of the text. */
  lemma DecodedQuotes(text: string, key: string)
    requires Decode(text).Decoded? && key in Decode(text).fields && Decode(text).fields[key].Str?
    ensures Quotes(text, Decode(text).fields[key].s)
  {
    hide Decode, Body, Quotes, Member.Proper;
    var ms, i, before, after := DecodedMember(text, key);
    BodyQuotes(ms, i);
    QuotesInside(before + "{", Body(ms), after, ms[i].value.s);
    BracedText(before, Body(ms), after);
  }

  lemma BracedText(before: string, body: string, after: string)
    ensures before + ("{" + (body + after)) == before + "{" + body + after
  {}

  /** Decoding answers flat objects only. */
  lemma DecodedFlat(text: string)
    ensures Decode(text).Decoded? ==> Flat(Decode(text).fields)
  {
    hide Decode, StringDenotes;
    if Decode(text).Decoded? {
      forall key | key in Decode(text).fields ensures FlatValue(Decode(text).fields[key]) {
        var ms, i, before, after := DecodedMember(text, key);
        assert ms[i].Proper();
      }
    }
  }

  /** The decoder as an unmarshaller. */
  function ByDecode(text: string): Parsed {
    match Decode(text)
    case Decoded(fields) => Fields(fields)
    case _ => NotAnObject
  }

  /** It is what the theorems ask of an unmarshaller. */
  lemma ByDecodeStable()
    ensures Faithful(ByDecode) && Stable(ByDecode)
  {
    hide Decode, Marshal;
    forall m: Object | forall key :: key in m ==> Produced(ByDecode, m[key])
      ensures ByDecode(Marshal(m)) == Fields(m)
    {
      forall key | key in m ensures FlatValue(m[key]) {
        var text, k :| ByDecode(text).Fields? && k in ByDecode(text).fields && ByDecode(text).fields[k] == m[key];
        DecodedFlat(text);
      }
      DecodeMarshal(m);
    }
  }

  /** Marshalling is injective: distinct objects never share a text. */
  lemma MarshalInjective(m1: Object, m2: Object)
    requires Flat(m1) && Flat(m2) && Marshal(m1) == Marshal(m2)
    ensures m1 == m2
  {
    DecodeMarshal(m1);
    DecodeMarshal(m2);
  }

  lemma ExponentShown(n: int)
    ensures 'e' in SprintInt(n) <==> !(-1_000_000 < n < 1_000_000)
    ensures 'e' !in Decimal(n)
  {}

  /** `%v` of a decoded integer is the integer as JSON wrote it exactly below
      seven digits; from there on it is in exponent form. */
  lemma IntegerPrintsAsWritten(n: int)
    ensures SprintInt(n) == Decimal(n) <==> -1_000_000 < n < 1_000_000
  {
    ExponentShown(n);
  }

  function Pow10(k: nat): nat { if k == 0 then 1 else 10 * Pow10(k - 1) }

  lemma AppendZero(s: string)
    requires AllDigits(s)
    ensures AllDigits(s + "0") && NatValue(s + "0") == 10 * NatValue(s)
  {
    assert (s + "0")[..|s|] == s;
  }

  lemma {:induction false} StripZerosValue(prefix: string, s: string)
    requires AllDigits(prefix + s)
    ensures AllDigits(prefix + StripZeros(s))
    ensures NatValue(prefix + s) == NatValue(prefix + StripZeros(s)) * Pow10(|s| - |StripZeros(s)|)
  {
    hide NatValue;
    if s != "" && s[|s| - 1] == '0' {
      var front := s[..|s| - 1];
      assert prefix + s == (prefix + front) + "0";
      assert forall i :: 0 <= i < |prefix + front| ==> (prefix + front)[i] == (prefix + s)[i];
      AppendZero(prefix + front);
      StripZerosValue(prefix, front);
      var x, k := NatValue(prefix + StripZeros(front)), |front| - |StripZeros(front)|;
      assert 10 * (x * Pow10(k)) == x * Pow10(k + 1);
    }
  }

  /** The digits an exponent form shows: all but trailing zeros. */
  function Significant(n: nat): (s: string)
    ensures AllDigits(s)
  {
    var digits := Digits(n);
    assert digits[..1] + digits[1..] == digits;
    StripZerosValue(digits[..1], digits[1..]);
    digits[..1] + StripZeros(digits[1..])
  }

  /** The exponent form denotes the same integer: its significant digits, the point
      after the first, times ten to its exponent. */
  lemma ExponentFormValue(n: nat)
    ensures |Significant(n)| <= |Digits(n)|
    ensures NatValue(Significant(n)) * Pow10(|Digits(n)| - |Significant(n)|) == n
  {
    var digits := Digits(n);
    NatValueOfDigits(n);
    hide Digits, NatValue;
    assert digits[..1] + digits[1..] == digits;
    StripZerosValue(digits[..1], digits[1..]);
  }

  // ----- `%v` never merges two integers

  function ExponentDigits(exponent: nat): string {
    (if exponent < 10 then "0" else "") + Digits(exponent)
  }

  lemma ExponentDigitsValue(exponent: nat)
    ensures AllDigits(ExponentDigits(exponent)) && NatValue(ExponentDigits(exponent)) == exponent
  {
    NatValueOfDigits(exponent);
    if exponent < 10 {
      var zero: string := "0";
      assert zero[..0] == "" && NatValue(zero) == 0;
      var s := zero + Digits(exponent);
      assert s[..|s| - 1] == zero && s[|s| - 1] == DigitChar(exponent);
    } else {
      assert ExponentDigits(exponent) == Digits(exponent);
    }
  }

  /** Digits with the point after the first. */
  function Pointed(shown: string): string
    requires shown != ""
  {
    shown[..1] + if |shown| == 1 then "" else "." + shown[1..]
  }

  lemma PointedInjective(a: string, b: string)
    requires a != "" && b != "" && Pointed(a) == Pointed(b)
    ensures a == b
  {
    assert Pointed(a)[0] == a[0] && Pointed(b)[0] == b[0];
    assert |a| > 1 ==> Pointed(a)[2..] == a[1..];
    assert |b| > 1 ==> Pointed(b)[2..] == b[1..];
    assert a == [a[0]] + a[1..] && b == [b[0]] + b[1..];
  }

  lemma PointedHasNoE(s: string)
    requires s != "" && AllDigits(s)
    ensures 'e' !in Pointed(s)
  {
    assert forall i :: 1 <= i < |s| ==> s[1..][i - 1] == s[i];
  }

  lemma JoinAtE(first: string, more: string, pad: string, exponent: string)
    ensures "" + first + more + "e+" + pad + exponent == (first + more) + ['e'] + ("+" + (pad + exponent))
  {}

  lemma SignificantParts(n: nat)
    ensures Significant(n) != "" && Significant(n)[..1] == Digits(n)[..1]
            && Significant(n)[1..] == StripZeros(Digits(n)[1..])
  {
    hide Digits, StripZeros;
  }

  /** From seven digits on: the significant digits with the point after the first, and
      the exponent. */
  lemma LongNaturalParts(n: nat)
    requires n >= 1_000_000
    ensures Significant(n) != "" && 'e' !in Pointed(Significant(n))
    ensures SprintInt(n) == Pointed(Significant(n)) + ['e'] + ("+" + ExponentDigits(|Digits(n)| - 1))
  {
    var digits, exponent := Digits(n), |Digits(n)| - 1;
    SignificantParts(n);
    PointedHasNoE(Significant(n));
    hide Digits, StripZeros, Significant;
    var rest := StripZeros(digits[1..]);
    JoinAtE(digits[..1], if rest == "" then "" else "." + rest, if exponent < 10 then "0" else "", Digits(exponent));
  }

  lemma LongNaturalsInjective(a: nat, b: nat)
    requires a >= 1_000_000 && b >= 1_000_000 && SprintInt(a) == SprintInt(b)
    ensures a == b
  {
    hide SprintInt, Digits, Significant, Pointed, ExponentDigits, NatValue;
    LongNaturalParts(a);
    LongNaturalParts(b);
    var x, y := ExponentDigits(|Digits(a)| - 1), ExponentDigits(|Digits(b)| - 1);
    CutAtFirst(Pointed(Significant(a)), "+" + x, Pointed(Significant(b)), "+" + y, 'e');
    assert ("+" + x)[1..] == x && ("+" + y)[1..] == y;
    ExponentDigitsValue(|Digits(a)| - 1);
    ExponentDigitsValue(|Digits(b)| - 1);
    PointedInjective(Significant(a), Significant(b));
    ExponentFormValue(a);
    ExponentFormValue(b);
  }

  lemma NaturalsInjective(a: nat, b: nat)
    requires SprintInt(a) == SprintInt(b)
    ensures a == b
  {
    if a < 1_000_000 && b < 1_000_000 {
      NatValueOfDigits(a);
      NatValueOfDigits(b);
    } else if a >= 1_000_000 && b >= 1_000_000 {
      LongNaturalsInjective(a, b);
    } else {
      ExponentShown(a);
      ExponentShown(b);
    }
  }

  lemma SignInFront(sign: string, first: string, more: string, e: string, pad: string, exponent: string)
    ensures sign + first + more + e + pad + exponent == sign + ("" + first + more + e + pad + exponent)
  {}

  lemma SignPrinted(n: int)
    ensures n < 0 ==> SprintInt(n) == "-" + SprintInt(-n)
    ensures n >= 0 ==> SprintInt(n) != "" && IsDigit(SprintInt(n)[0])
  {
    var digits := Digits(if n < 0 then -n else n);
    var significant := StripZeros(digits[1..]);
    var more, pad := if significant == "" then "" else "." + significant, if |digits| - 1 < 10 then "0" else "";
    SignInFront("-", digits[..1], more, "e+", pad, Digits(|digits| - 1));
    hide StripZeros, Digits;
  }

  /** `%v` prints distinct integers distinctly, the exponent form included. */
  lemma PrintedIntegersDistinct(a: int, b: int)
    requires SprintInt(a) == SprintInt(b)
    ensures a == b
  {
    SignPrinted(a);
    SignPrinted(b);
    hide SprintInt;
    if a >= 0 && b >= 0 {
      NaturalsInjective(a, b);
    } else if a < 0 && b < 0 {
      assert ("-" + SprintInt(-a))[1..] == SprintInt(-a);
      assert ("-" + SprintInt(-b))[1..] == SprintInt(-b);
      NaturalsInjective(-a, -b);
    }
  }
}
