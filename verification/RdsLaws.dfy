/** The RDS provider prints its JSON without escaping.  Which databases it prints so
    that they can be read back (provider/aws_iam_auth_rds/provider.go). */
module RdsLaws {
  import opened Text
  import opened Json
  import opened JsonLaws
  import opened Rds

  // ----- a literal with an escape lies inside one field

  /** What stands before a field: it ends with a blank and the opening quote. */
  predicate Opens(s: string) { |s| >= 2 && s[|s| - 2] == ' ' && s[|s| - 1] == '"' }

  /** What stands behind a field: its closing quote, then, a comma aside, a new line. */
  predicate Closes(s: string) {
    |s| >= 3 && s[0] == '"' && (s[1] == '\n' || (s[1] == ',' && s[2] == '\n'))
  }

  /** A literal that covers a position inside a field reaches over neither end. */
  lemma LiteralInField(text: string, front: string, field: string, back: string,
                       before: string, raw: string, after: string, p: nat)
    requires text == front + (field + back) && Opens(front) && Closes(back)
    requires Literal(text, before, raw, after)
    requires forall i :: 0 <= i < |raw| ==> raw[i] >= ' '
    requires forall i :: 0 <= i < |raw| && raw[i] == '"' ==> i > 0 && raw[i - 1] == '\\'
    requires |before| + 1 <= p < |before| + 1 + |raw| && |front| <= p < |front| + |field|
    ensures |raw| <= |field|
  {
    var i, j, e := |before| + 1, |before| + 1 + |raw|, |front| + |field|;
    assert text[i..j] == raw && text[j] == '"';
    assert forall k :: i <= k < j ==> text[k] == raw[k - i];
    assert text[|front| - 1] == '"' && text[|front| - 2] == ' ';
    assert forall k :: 0 <= k < |back| ==> text[e + k] == back[k];
  }

  lemma QuotedInField(text: string, front: string, field: string, back: string,
                      before: string, raw: string, after: string, v: string, p: nat)
    requires text == front + (field + back) && Opens(front) && Closes(back)
    requires Literal(text, before, raw, after) && Spells(raw, v) && !Plain(v)
    requires |before| + 1 <= p < |before| + 1 + |raw| && |front| <= p < |front| + |field| && text[p] == '\\'
    ensures |v| < |field| && !Plain(field)
  {
    LiteralInField(text, front, field, back, before, raw, after, p);
    assert field[p - |front|] == '\\';
  }

  /** Four fields among texts without backslashes. */
  datatype Sheet = Sheet(
    head: string, f1: string, gap1: string, f2: string, gap2: string, f3: string, gap3: string, f4: string, end: string)
  {
    function Text(): string {
      head + (f1 + (gap1 + (f2 + (gap2 + (f3 + (gap3 + (f4 + end)))))))
    }

    predicate Lined() {
      && Opens(head) && Opens(gap1) && Opens(gap2) && Opens(gap3)
      && Closes(gap1) && Closes(gap2) && Closes(gap3) && Closes(end)
      && '\\' !in head && '\\' !in gap1 && '\\' !in gap2 && '\\' !in gap3 && '\\' !in end
    }

    /** The texts in front of and behind each field. */
    function Front(k: nat): string
      requires 1 <= k <= 4
    {
      if k == 1 then head
      else if k == 2 then head + f1 + gap1
      else if k == 3 then head + f1 + gap1 + f2 + gap2
      else head + f1 + gap1 + f2 + gap2 + f3 + gap3
    }

    function Field(k: nat): string
      requires 1 <= k <= 4
    {
      if k == 1 then f1 else if k == 2 then f2 else if k == 3 then f3 else f4
    }

    function Back(k: nat): string
      requires 1 <= k <= 4
    {
      if k == 1 then gap1 + (f2 + (gap2 + (f3 + (gap3 + (f4 + end)))))
      else if k == 2 then gap2 + (f3 + (gap3 + (f4 + end)))
      else if k == 3 then gap3 + (f4 + end)
      else end
    }
  }

  lemma SheetAround(sheet: Sheet, k: nat)
    requires sheet.Lined() && 1 <= k <= 4
    ensures sheet.Text() == sheet.Front(k) + (sheet.Field(k) + sheet.Back(k))
    ensures Opens(sheet.Front(k)) && Closes(sheet.Back(k))
  {}

  /** A backslash stands in a field. */
  lemma BackslashInField(sheet: Sheet, p: nat) returns (k: nat)
    requires sheet.Lined() && p < |sheet.Text()| && sheet.Text()[p] == '\\'
    ensures 1 <= k <= 4 && |sheet.Front(k)| <= p < |sheet.Front(k)| + |sheet.Field(k)|
  {
    var n1 := |sheet.head| + |sheet.f1|;
    var n2 := n1 + |sheet.gap1| + |sheet.f2|;
    var n3 := n2 + |sheet.gap2| + |sheet.f3|;
    k := if p < n1 then 1 else if p < n2 then 2 else if p < n3 then 3 else 4;
    SheetAround(sheet, k);
    assert k == 4 ==> forall i :: 0 <= i < |sheet.end| ==>
             sheet.Text()[|sheet.Front(4)| + |sheet.f4| + i] == sheet.end[i];
  }

  /** A string with a character that needs escaping is read only from inside a longer
      field, one that needs escaping itself. */
  lemma ReadFromLongerField(sheet: Sheet, v: string) returns (k: nat)
    requires sheet.Lined() && Quotes(sheet.Text(), v) && !Plain(v)
    ensures 1 <= k <= 4 && |v| < |sheet.Field(k)| && !Plain(sheet.Field(k))
  {
    var text := sheet.Text();
    var before, raw, after :| Literal(text, before, raw, after) && Spells(raw, v);
    var i :| 0 <= i < |raw| && raw[i] == '\\';
    var p := |before| + 1 + i;
    assert text[p] == '\\';
    k := BackslashInField(sheet, p);
    SheetAround(sheet, k);
    QuotedInField(text, sheet.Front(k), sheet.Field(k), sheet.Back(k), before, raw, after, v, p);
  }

  /** Fields that are all read back need no escaping: the longest that does would be read
      from a longer one. */
  lemma AllPlain(sheet: Sheet)
    requires sheet.Lined()
    requires forall k :: 1 <= k <= 4 ==> Quotes(sheet.Text(), sheet.Field(k))
    ensures forall k :: 1 <= k <= 4 ==> Plain(sheet.Field(k))
  {
    forall k | 1 <= k <= 4 ensures Plain(sheet.Field(k)) {
      FieldPlain(sheet, k);
    }
  }

  lemma {:induction false} FieldPlain(sheet: Sheet, k: nat)
    requires sheet.Lined() && 1 <= k <= 4
    requires forall k :: 1 <= k <= 4 ==> Quotes(sheet.Text(), sheet.Field(k))
    ensures Plain(sheet.Field(k))
    decreases |sheet.f1| + |sheet.f2| + |sheet.f3| + |sheet.f4| - |sheet.Field(k)|
  {
    if !Plain(sheet.Field(k)) {
      var longer := ReadFromLongerField(sheet, sheet.Field(k));
      FieldPlain(sheet, longer);
    }
  }

  // ----- the printed JSON

  const NEW_LINE := ",\n\t\t"

  /** From the closing quote of one field to the opening quote of the next. */
  function Gap(between: string): string { "\"" + NEW_LINE + between + "\"" }

  function PortLine(port: int): string { "\"db_port\": " + Decimal(port) + NEW_LINE + "\"db_name\": " }

  function SheetOf(db: Database, token: string): Sheet {
    Sheet("{\n\t\t" + "\"db_host\": " + "\"", db.host, Gap(PortLine(db.port)), db.name, Gap("\"db_user\": "), db.user,
          Gap("\"password\": "), token, "\"" + "\n}")
  }

  lemma LineRegrouped(between: string, s: string, x: string)
    ensures "\"" + (NEW_LINE + (between + Quoted(s) + x)) == Gap(between) + (s + ("\"" + x))
  {}

  lemma HeadRegrouped(open: string, between: string, s: string, x: string)
    ensures open + (between + Quoted(s) + x) == open + between + "\"" + (s + ("\"" + x))
  {}

  lemma PortRegrouped(port: string, between: string, field: string, x: string)
    ensures "\"db_port\": " + port + NEW_LINE + (between + field + x)
            == "\"db_port\": " + port + NEW_LINE + between + field + x
  {}

  lemma CommaRegrouped(between: string, field: string, x: string)
    ensures between + field + NEW_LINE + x == between + field + (NEW_LINE + x)
  {}

  /** The printer's text line by line. */
  lemma SecretJsonLines(host: string, port: string, name: string, user: string, token: string)
    ensures
      var x5 := "\"password\": " + token + "\n}";
      var x4 := "\"db_user\": " + user + (NEW_LINE + x5);
      var x3 := "\"db_port\": " + port + NEW_LINE + "\"db_name\": " + name + (NEW_LINE + x4);
      "\"db_host\": " + host + NEW_LINE + ("\"db_port\": " + port + NEW_LINE + ("\"db_name\": " + name + NEW_LINE +
      ("\"db_user\": " + user + NEW_LINE + x5))) == "\"db_host\": " + host + (NEW_LINE + x3)
  {
    var x5 := "\"password\": " + token + "\n}";
    var x4 := "\"db_user\": " + user + (NEW_LINE + x5);
    CommaRegrouped("\"db_user\": ", user, x5);
    CommaRegrouped("\"db_name\": ", name, x4);
    PortRegrouped(port, "\"db_name\": ", name, NEW_LINE + x4);
    CommaRegrouped("\"db_host\": ", host,
      "\"db_port\": " + port + NEW_LINE + ("\"db_name\": " + name + (NEW_LINE + x4)));
  }

  lemma SecretJsonIsSheet(db: Database, token: string)
    ensures SecretJson(db, token) == SheetOf(db, token).Text()
  {
    var x5 := "\"password\": " + Quoted(token) + "\n}";
    var x4 := "\"db_user\": " + Quoted(db.user) + (NEW_LINE + x5);
    var x3 := PortLine(db.port) + Quoted(db.name) + (NEW_LINE + x4);
    LineRegrouped("\"password\": ", token, "\n}");
    LineRegrouped("\"db_user\": ", db.user, NEW_LINE + x5);
    LineRegrouped(PortLine(db.port), db.name, NEW_LINE + x4);
    HeadRegrouped("{\n\t\t", "\"db_host\": ", db.host, NEW_LINE + x3);
    SecretJsonLines(Quoted(db.host), Decimal(db.port), Quoted(db.name), Quoted(db.user), Quoted(token));
    hide Quoted, Gap, Decimal;
  }

  lemma GapLined(between: string)
    requires between != "" && between[|between| - 1] == ' ' && '\\' !in between
    ensures Opens(Gap(between)) && Closes(Gap(between)) && '\\' !in Gap(between)
  {}

  lemma PortLineEnds(port: int)
    ensures PortLine(port) != "" && PortLine(port)[|PortLine(port)| - 1] == ' ' && '\\' !in PortLine(port)
  {
    hide Decimal;
  }

  lemma SheetLined(db: Database, token: string)
    ensures SheetOf(db, token).Lined()
  {
    PortLineEnds(db.port);
    hide PortLine, Gap;
    GapLined(PortLine(db.port));
    GapLined("\"db_user\": ");
    GapLined("\"password\": ");
  }

  lemma FieldValues(db: Database, token: string)
    ensures var fields := SecretFields(db, token);
            && fields.Keys == {"db_host", "db_port", "db_name", "db_user", "password"}
            && fields["db_host"] == Str(db.host) && fields["db_port"] == Int(db.port)
            && fields["db_name"] == Str(db.name) && fields["db_user"] == Str(db.user)
            && fields["password"] == Str(token)
  {}

  /** Each field is read from some literal of the text. */
  lemma FieldsQuoted(db: Database, token: string)
    requires Decode(SecretJson(db, token)) == Decoded(SecretFields(db, token))
    ensures forall k :: 1 <= k <= 4 ==> Quotes(SheetOf(db, token).Text(), SheetOf(db, token).Field(k))
    ensures Exact(db.port)
  {
    hide Decode, SecretJson, SecretFields, Quotes;
    var text := SecretJson(db, token);
    FieldValues(db, token);
    DecodedFlat(text);
    DecodedQuotes(text, "db_host");
    DecodedQuotes(text, "db_name");
    DecodedQuotes(text, "db_user");
    DecodedQuotes(text, "password");
    SecretJsonIsSheet(db, token);
    hide Gap, PortLine;
  }

  /** What the printer writes decodes to the database's fields exactly when no field
      holds a quote, a backslash or a control character and the port is one that a
      float64 holds; nothing else that the fields hold brings them back. */
  lemma SecretJsonDecodesIff(db: Database, token: string)
    ensures Decode(SecretJson(db, token)) == Decoded(SecretFields(db, token))
            <==> PlainFields(db, token) && Exact(db.port)
  {
    if PlainFields(db, token) && Exact(db.port) {
      SecretJsonDecodes(db, token);
    }
    hide Decode, SecretJson, SecretFields, Quotes, Plain;
    if Decode(SecretJson(db, token)) == Decoded(SecretFields(db, token)) {
      var sheet := SheetOf(db, token);
      FieldsQuoted(db, token);
      SheetLined(db, token);
      AllPlain(sheet);
      assert Plain(sheet.Field(1)) && Plain(sheet.Field(2)) && Plain(sheet.Field(3)) && Plain(sheet.Field(4));
    }
  }
}
