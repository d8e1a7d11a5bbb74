/** The RDS provider: `buildDSN`, and the JSON it prints by hand for the template
    engine to read back (provider/aws_iam_auth_rds/provider.go). */
module Rds {
  import opened Text
  import opened Json
  import opened JsonLaws
  import opened Template
  import opened TemplateLaws

  datatype Database = Database(host: string, port: int, name: string, user: string)

  function Dsn(host: string, port: string, user: string, password: string, name: string): string {
    "host=" + host + (" port=" + port + (" user=" + user + (" password=" + password + (" dbname=" + name))))
  }

  /** `buildDSN` */
  function BuildDsn(db: Database, token: string): string {
    Dsn(db.host, Decimal(db.port), db.user, token, db.name)
  }

  function Quoted(s: string): string { "\"" + s + "\"" }

  /** The format string of `getSecret`, filled in. */
  function SecretJson(db: Database, token: string): string {
    "{\n\t\t" +
    ("\"db_host\": " + Quoted(db.host) + ",\n\t\t" +
    ("\"db_port\": " + Decimal(db.port) + ",\n\t\t" +
    ("\"db_name\": " + Quoted(db.name) + ",\n\t\t" +
    ("\"db_user\": " + Quoted(db.user) + ",\n\t\t" +
    ("\"password\": " + Quoted(token) + "\n}")))))
  }

  /** The connection-string template naming every field of that JSON. */
  const DSN_TEMPLATE :=
    "host=##.db_host##" +
    (" port=##.db_port##" + (" user=##.db_user##" + (" password=##.password##" + " dbname=##.db_name##")))

  const DSN_SHAPE :=
    Piece("host=", ".db_host", Piece(" port=", ".db_port", Piece(" user=", ".db_user",
    Piece(" password=", ".password", Piece(" dbname=", ".db_name", Tail(""))))))

  // ----- the printed JSON decodes to the database's fields

  function SecretFields(db: Database, token: string): Object {
    map["db_host" := Str(db.host), "db_port" := Int(db.port), "db_name" := Str(db.name),
        "db_user" := Str(db.user), "password" := Str(token)]
  }

  const KEYS := ["db_host", "db_port", "db_name", "db_user", "password"]

  const LAYOUT := Layout(false, "\n\t\t", "", " ", "", "\n\t\t", "\n")

  /** Strings the printer may put between quotes unescaped. */
  predicate PlainFields(db: Database, token: string) {
    Plain(db.host) && Plain(db.name) && Plain(db.user) && Plain(token)
  }

  lemma LastJoined(key: string, v: string)
    ensures ("\"" + key + "\"" + "" + ":" + " " + v) + ("\n" + "}") == "\"" + key + "\": " + v + "\n}"
  {}

  lemma NextJoined(key: string, v: string, more: string)
    ensures ("\"" + key + "\"" + "" + ":" + " " + v) + ("" + "," + ("\n\t\t" + more))
            == "\"" + key + "\": " + v + ",\n\t\t" + more
  {}

  lemma LastMemberText(m: Object, key: string, s: string)
    requires key in m && m[key] == Str(s)
    ensures WriteMembers(m, [key], LAYOUT) == "\"" + key + "\": " + Quoted(s) + "\n}"
  {
    WriteMembersFront(m, [key], LAYOUT);
    hide WriteMembers;
    assert ValueText(m[key], LAYOUT) == Quoted(s);
    hide ValueText, Quoted;
    LastJoined(key, Quoted(s));
  }

  lemma NextMemberText(m: Object, keys: seq<string>)
    requires |keys| >= 2 && Writable(m, keys)
    ensures WriteMembers(m, keys, LAYOUT)
            == "\"" + keys[0] + "\": " + ValueText(m[keys[0]], LAYOUT) + ",\n\t\t" + WriteMembers(m, keys[1..], LAYOUT)
  {
    WriteMembersFront(m, keys, LAYOUT);
    hide WriteMembers, ValueText;
    NextJoined(keys[0], ValueText(m[keys[0]], LAYOUT), WriteMembers(m, keys[1..], LAYOUT));
  }

  lemma SecretJsonIsWritten(db: Database, token: string)
    requires Exact(db.port)
    ensures Writable(SecretFields(db, token), KEYS)
    ensures SecretJson(db, token) == Write(SecretFields(db, token), KEYS, LAYOUT)
  {
    hide WriteMembers;
    var m := SecretFields(db, token);
    var keys4 := ["db_user", "password"];
    var keys3 := ["db_name"] + keys4;
    var keys2 := ["db_port"] + keys3;
    var text5 := "\"password\": " + Quoted(token) + "\n}";
    var text4 := "\"db_user\": " + Quoted(db.user) + ",\n\t\t" + text5;
    var text3 := "\"db_name\": " + Quoted(db.name) + ",\n\t\t" + text4;
    var text2 := "\"db_port\": " + Decimal(db.port) + ",\n\t\t" + text3;
    var text1 := "\"db_host\": " + Quoted(db.host) + ",\n\t\t" + text2;
    assert WriteMembers(m, ["password"], LAYOUT) == text5 by {
      LastMemberText(m, "password", token);
      assert "\"" + "password" + "\": " == "\"password\": ";
    }
    assert WriteMembers(m, keys4, LAYOUT) == text4 by {
      NextMemberText(m, keys4);
      assert keys4[1..] == ["password"];
      assert "\"" + "db_user" + "\": " == "\"db_user\": ";
    }
    assert WriteMembers(m, keys3, LAYOUT) == text3 by {
      NextMemberText(m, keys3);
      assert keys3[1..] == keys4;
      assert "\"" + "db_name" + "\": " == "\"db_name\": ";
    }
    assert WriteMembers(m, keys2, LAYOUT) == text2 by {
      NextMemberText(m, keys2);
      assert keys2[1..] == keys3;
      assert "\"" + "db_port" + "\": " == "\"db_port\": ";
    }
    assert WriteMembers(m, KEYS, LAYOUT) == text1 by {
      NextMemberText(m, KEYS);
      assert KEYS[1..] == keys2;
      assert "\"" + "db_host" + "\": " == "\"db_host\": ";
    }
    assert "{" + "\n\t\t" == "{\n\t\t";
  }

  lemma NothingAround(s: string)
    ensures "" + s + "" == s
  {}

  /** `json.Unmarshal` reads the printed fields back. */
  lemma SecretJsonDecodes(db: Database, token: string)
    requires Exact(db.port) && PlainFields(db, token)
    ensures Decode(SecretJson(db, token)) == Decoded(SecretFields(db, token))
  {
    hide Decode, Write, SecretJson, SecretFields, Writable, LegibleMembers, Select, PlainFields, Layout.Blank;
    FieldsLegible(db, token);
    SecretJsonIsWritten(db, token);
    DecodeWritten(SecretFields(db, token), KEYS, LAYOUT, "", "");
    NothingAround(SecretJson(db, token));
  }

  lemma FieldsLegible(db: Database, token: string)
    requires Exact(db.port) && PlainFields(db, token)
    ensures Writable(SecretFields(db, token), KEYS) && LegibleMembers(SecretFields(db, token), KEYS, LAYOUT)
    ensures LAYOUT.Blank() && Select(SecretFields(db, token), KEYS) == SecretFields(db, token)
  {}

  // ----- the template reads them

  lemma TemplateSource()
    ensures DSN_SHAPE.Source() == DSN_TEMPLATE
  {
    assert " dbname=" + "##" + ".db_name" + "##" + "" == " dbname=##.db_name##";
    assert " password=" + "##" + ".password" + "##" == " password=##.password##";
    assert " user=" + "##" + ".db_user" + "##" == " user=##.db_user##";
    assert " port=" + "##" + ".db_port" + "##" == " port=##.db_port##";
    assert "host=" + "##" + ".db_host" + "##" == "host=##.db_host##";
  }

  lemma NoHash(literal: string, body: string, rest: Shape)
    requires Clean(rest) && forall i :: 0 <= i < |literal| ==> literal[i] != '#'
    requires forall i :: 0 <= i < |body| ==> body[i] != '#' && body[i] != '\n'
    ensures Clean(Piece(literal, body, rest))
  {}

  lemma TemplateClean()
    ensures Clean(DSN_SHAPE)
  {
    NoHash(" dbname=", ".db_name", Tail(""));
    hide Clean;
    NoHash(" password=", ".password", DSN_SHAPE.rest.rest.rest.rest);
    NoHash(" user=", ".db_user", DSN_SHAPE.rest.rest.rest);
    NoHash(" port=", ".db_port", DSN_SHAPE.rest.rest);
    NoHash("host=", ".db_host", DSN_SHAPE.rest);
  }

  lemma TemplateShape()
    ensures ShapeOf(DSN_TEMPLATE) == DSN_SHAPE
  {
    hide ShapeOf, Clean;
    TemplateClean();
    CleanIsLawful(DSN_SHAPE);
    TemplateSource();
    OnlyShape(DSN_TEMPLATE);
  }

  lemma NumeralTrimmed(n: int)
    ensures TrimSpace(SprintInt(n)) == SprintInt(n)
  {}

  lemma LookString(key: string, s: string, secret: Secret)
    requires secret.parsed.Fields? && key in secret.parsed.fields && secret.parsed.fields[key] == Str(s)
    requires '.' !in key && Trimmed(key)
    ensures JsonTemplate("." + key, secret).text == TrimSpace(s)
  {
    LookField("", key, secret);
    assert "" + "." + key == "." + key;
  }

  lemma LookInteger(key: string, n: int, secret: Secret)
    requires secret.parsed.Fields? && key in secret.parsed.fields && secret.parsed.fields[key] == Int(n)
    requires '.' !in key && Trimmed(key)
    ensures JsonTemplate("." + key, secret).text == SprintInt(n)
  {
    LookField("", key, secret);
    assert "" + "." + key == "." + key;
    NumeralTrimmed(n);
  }

  /** What `getSecret` returns for the connection-string template. */
  function TemplateResult(db: Database, token: string, unmarshal: Unmarshal): string {
    Rendered(DSN_TEMPLATE, Unmarshalled(SecretJson(db, token), unmarshal))
  }

  lemma FieldsLookedUp(db: Database, token: string, secret: Secret)
    requires secret.parsed == Parsed.Fields(SecretFields(db, token))
    ensures TextIn(secret)(".db_host") == TrimSpace(db.host)
    ensures TextIn(secret)(".db_port") == SprintInt(db.port)
    ensures TextIn(secret)(".db_user") == TrimSpace(db.user)
    ensures TextIn(secret)(".password") == TrimSpace(token)
    ensures TextIn(secret)(".db_name") == TrimSpace(db.name)
  {
    hide JsonTemplate, TrimSpace, SprintInt;
    LookString("db_host", db.host, secret);
    assert "." + "db_host" == ".db_host";
    LookInteger("db_port", db.port, secret);
    assert "." + "db_port" == ".db_port";
    LookString("db_user", db.user, secret);
    assert "." + "db_user" == ".db_user";
    LookString("password", token, secret);
    assert "." + "password" == ".password";
    LookString("db_name", db.name, secret);
    assert "." + "db_name" == ".db_name";
  }

  /** Every field comes out trimmed, the port as `%v` prints it. */
  lemma TemplateResultFields(db: Database, token: string, unmarshal: Unmarshal)
    requires Faithful(unmarshal) && Exact(db.port) && PlainFields(db, token)
    ensures TemplateResult(db, token, unmarshal)
            == Dsn(TrimSpace(db.host), SprintInt(db.port), TrimSpace(db.user), TrimSpace(token), TrimSpace(db.name))
  {
    hide JsonTemplate, Decode, SecretJson, SecretFields, Fill, ShapeOf, TrimSpace, SprintInt, Dsn, TextIn;
    SecretJsonDecodes(db, token);
    var secret := Unmarshalled(SecretJson(db, token), unmarshal);
    TemplateShape();
    DecodedSecretFills(DSN_SHAPE, secret);
    FieldsLookedUp(db, token, secret);
    FillDsn(TextIn(secret));
  }

  lemma FillDsn(text: string -> string)
    ensures Fill(DSN_SHAPE, text)
            == Dsn(text(".db_host"), text(".db_port"), text(".db_user"), text(".password"), text(".db_name"))
  {}

  predicate TrimmedFields(db: Database, token: string) {
    Trimmed(db.host) && Trimmed(db.user) && Trimmed(token) && Trimmed(db.name)
  }

  // ----- when that is the DSN

  /** What trimming takes off both ends is blank. */
  lemma TrimSpaceParts(s: string) returns (before: string, after: string)
    ensures s == before + TrimSpace(s) + after && Trimmed(TrimSpace(s))
    ensures forall i :: 0 <= i < |before| ==> IsSpace(before[i])
    ensures forall i :: 0 <= i < |after| ==> IsSpace(after[i])
  {
    var left := TrimLeft(s, IsSpace);
    TrimLeftResult(s, IsSpace);
    TrimRightResult(left, IsSpace);
    before, after := s[..|s| - |left|], left[|TrimSpace(s)|..];
    TrimmedOff(s, IsSpace);
    TrimmedOff(left, IsSpace);
    assert left == TrimSpace(s) + after;
  }

  lemma {:induction false} TrimmedOff(s: string, cut: char -> bool)
    ensures forall i :: 0 <= i < |s| - |TrimLeft(s, cut)| ==> cut(s[i])
    ensures forall i :: |TrimRight(s, cut)| <= i < |s| ==> cut(s[i])
    decreases |s|
  {
    if s != "" {
      TrimmedOff(s[1..], cut);
      TrimmedOff(s[..|s| - 1], cut);
      assert forall i :: 1 <= i < |s| ==> s[i] == s[1..][i - 1];
    }
  }

  /** A field that trimming shortens shows: the text joined behind it begins with a
      blank and a letter, what was cut off is all blanks. */
  lemma BlanksShow(s: string, x: string, y: string)
    requires |x| >= 2 && x[0] == ' ' && !IsSpace(x[1]) && y != "" && y[0] == ' '
    requires TrimSpace(s) != s
    ensures TrimSpace(s) + x != s + y
  {
    var t := TrimSpace(s);
    TrimSpaceLength(s);
    var before, after := TrimSpaceParts(s);
    hide TrimSpace;
    if s[..|t|] == t {
      assert t != "" ==> s[0] == t[0];
      assert forall i :: |t| <= i < |s| ==> IsSpace(s[i]);
      assert (t + x)[|t| + 1] != (s + y)[|t| + 1];
    } else {
      assert (t + x)[..|t|] != (s + y)[..|t|];
    }
  }

  lemma FieldCut(s: string, x: string, y: string)
    requires |x| >= 2 && x[0] == ' ' && !IsSpace(x[1]) && y != "" && y[0] == ' '
    requires TrimSpace(s) + x == s + y
    ensures TrimSpace(s) == s && x == y
  {
    hide TrimSpace;
    if TrimSpace(s) == s {
      assert (s + x)[|s|..] == x && (s + y)[|s|..] == y;
    } else {
      BlanksShow(s, x, y);
    }
  }

  lemma LabelCut(tag: string, a: string, x: string, b: string, y: string)
    requires tag + a + x == tag + b + y
    ensures a + x == b + y
  {
    assert (tag + a + x)[|tag|..] == a + x;
    assert (tag + b + y)[|tag|..] == b + y;
  }

  lemma LongPortShown(n: int)
    requires !(-1_000_000 < n < 1_000_000)
    ensures var at := if n < 0 then 2 else 1;
            at < |SprintInt(n)| && at < |Decimal(n)| && !IsDigit(SprintInt(n)[at]) && IsDigit(Decimal(n)[at])
  {
    hide StripZeros;
  }

  /** A port of seven digits or more differs from its decimal numeral at the second digit. */
  lemma LongPortShows(n: int, x: string, y: string)
    requires !(-1_000_000 < n < 1_000_000)
    ensures SprintInt(n) + x != Decimal(n) + y
  {
    LongPortShown(n);
    hide SprintInt, Decimal;
    var at := if n < 0 then 2 else 1;
    assert (SprintInt(n) + x)[at] != (Decimal(n) + y)[at];
  }

  lemma PortCut(n: int, x: string, y: string)
    requires SprintInt(n) + x == Decimal(n) + y
    ensures -1_000_000 < n < 1_000_000 && x == y
  {
    if -1_000_000 < n < 1_000_000 {
      IntegerPrintsAsWritten(n);
      hide SprintInt, Decimal;
      assert (SprintInt(n) + x)[|SprintInt(n)|..] == x && (Decimal(n) + y)[|Decimal(n)|..] == y;
    } else {
      LongPortShows(n, x, y);
    }
  }

  lemma DsnFieldsCut(host: string, port: int, user: string, password: string, name: string)
    requires Dsn(TrimSpace(host), SprintInt(port), TrimSpace(user), TrimSpace(password), TrimSpace(name))
             == Dsn(host, Decimal(port), user, password, name)
    ensures -1_000_000 < port < 1_000_000
    ensures TrimSpace(host) == host && TrimSpace(user) == user && TrimSpace(password) == password
            && TrimSpace(name) == name
  {
    hide TrimSpace, SprintInt, Decimal;
    var (h, u, p, n) := (TrimSpace(host), TrimSpace(user), TrimSpace(password), TrimSpace(name));
    var name1, name2 := " dbname=" + n, " dbname=" + name;
    var password1, password2 := " password=" + p + name1, " password=" + password + name2;
    var user1, user2 := " user=" + u + password1, " user=" + user + password2;
    var port1, port2 := " port=" + SprintInt(port) + user1, " port=" + Decimal(port) + user2;
    LabelCut("host=", h, port1, host, port2);
    FieldCut(host, port1, port2);
    LabelCut(" port=", SprintInt(port), user1, Decimal(port), user2);
    PortCut(port, user1, user2);
    LabelCut(" user=", u, password1, user, password2);
    FieldCut(user, password1, password2);
    LabelCut(" password=", p, name1, password, name2);
    FieldCut(password, name1, name2);
    assert name1[8..] == n && name2[8..] == name;
  }

  /** Printing the JSON and filling the template gives the DSN, for plain fields and
      every port a float64 holds exactly, when and only when no field has outer blanks and
      the port has fewer than seven digits: every TCP port, but not every integer the
      configuration admits. */
  lemma TemplateIsDsnIff(db: Database, token: string, unmarshal: Unmarshal)
    requires Faithful(unmarshal) && PlainFields(db, token) && Exact(db.port)
    ensures TemplateResult(db, token, unmarshal) == BuildDsn(db, token)
            <==> TrimmedFields(db, token) && -1_000_000 < db.port < 1_000_000
  {
    TemplateResultFields(db, token, unmarshal);
    IntegerPrintsAsWritten(db.port);
    TrimSpaceLength(db.host);
    TrimSpaceLength(db.user);
    TrimSpaceLength(token);
    TrimSpaceLength(db.name);
    hide TemplateResult, TrimSpace, SprintInt, Decimal, Dsn, Faithful;
    if TemplateResult(db, token, unmarshal) == BuildDsn(db, token) {
      DsnFieldsCut(db.host, db.port, db.user, token, db.name);
    }
  }
}
