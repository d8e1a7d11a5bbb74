/** Vault's KV v2 reads: the canonical path, the version asked for, and the field
    or whole payload handed on (provider/hashicorp_vault/kv.go). */
module Kv {
  import opened Text
  import opened Json
  import opened JsonSyntax
  import opened JsonLaws
  import opened Template
  import opened TemplateLaws

  // ----- the read path

  const DEFAULT_MOUNT := "secret"

  function Trim(s: string, cut: char -> bool): string { TrimRight(TrimLeft(s, cut), cut) }

  function MountOf(mount: string): string {
    if Trim(mount, IsSlash) == "" then DEFAULT_MOUNT else Trim(mount, IsSlash)
  }

  /** `buildKVv2Path` */
  function BuildPath(mount: string, path: string): string {
    var p := TrimLeft(path, IsSlash);
    if "data/" <= p then MountOf(mount) + "/" + p else MountOf(mount) + "/data/" + p
  }

  /** The path below `data/`, whether or not the caller wrote that segment. */
  function SubPath(path: string): string {
    var p := TrimLeft(path, IsSlash);
    if "data/" <= p then p[5..] else p
  }

  lemma MountNormal(mount: string)
    ensures MountOf(mount) != "" && MountOf(mount)[0] != '/' && MountOf(mount)[|MountOf(mount)| - 1] != '/'
  {
    var left := TrimLeft(mount, IsSlash);
    TrimLeftResult(mount, IsSlash);
    TrimRightResult(left, IsSlash);
    var m := TrimRight(left, IsSlash);
    if m != "" { assert m[0] == left[0]; }
  }

  /** The canonical form: one `data` segment between the mount and the rest. */
  lemma PathNormalForm(mount: string, path: string)
    ensures BuildPath(mount, path) == MountOf(mount) + "/data/" + SubPath(path)
    ensures MountOf(mount) != "" && MountOf(mount)[0] != '/' && MountOf(mount)[|MountOf(mount)| - 1] != '/'
  {
    MountNormal(mount);
    hide MountOf, TrimLeft;
    var p := TrimLeft(path, IsSlash);
    if "data/" <= p {
      assert p == "data/" + p[5..];
      assert "/" + "data/" == "/data/";
    }
  }

  // ----- the read

  /** What Vault is asked for. */
  datatype Query = Query(path: string, version: Option<string>)

  function QueryFor(mount: string, path: string, version: string): Query {
    Query(BuildPath(mount, path), if version != "" && version != "0" then Some(version) else None)
  }

  predicate Latest(version: string) { version == "" || version == "0" }

  /** The mount m2 goes on where m1 ends, with the front of what m1's path spells. */
  ghost predicate Continues(m1: string, p1: string, m2: string, p2: string) {
    exists more :: m2 == m1 + "/" + more && "data/" + p1 == more + "/" + ("data/" + p2)
  }

  /** Texts joined by a slash agree exactly when the heads do, or one head goes on into
      the other's rest. */
  lemma JoinedIff(m1: string, x1: string, m2: string, x2: string)
    ensures m1 + "/" + x1 == m2 + "/" + x2 <==>
              || (m1 == m2 && x1 == x2)
              || (exists more :: m2 == m1 + "/" + more && x1 == more + "/" + x2)
              || (exists more :: m1 == m2 + "/" + more && x2 == more + "/" + x1)
  {
    var s1, s2 := m1 + "/" + x1, m2 + "/" + x2;
    if s1 == s2 {
      if |m1| == |m2| {
        assert s1[..|m1|] == m1 && s2[..|m1|] == m2;
        assert s1[|m1| + 1..] == x1 && s2[|m1| + 1..] == x2;
      } else if |m1| < |m2| {
        JoinedLonger(m1, x1, m2, x2);
      } else {
        JoinedLonger(m2, x2, m1, x1);
      }
    }
    forall more | m2 == m1 + "/" + more && x1 == more + "/" + x2 ensures s1 == s2 {}
    forall more | m1 == m2 + "/" + more && x2 == more + "/" + x1 ensures s1 == s2 {}
  }

  lemma JoinedLonger(m1: string, x1: string, m2: string, x2: string)
    requires |m1| < |m2| && m1 + "/" + x1 == m2 + "/" + x2
    ensures exists more :: m2 == m1 + "/" + more && x1 == more + "/" + x2
  {
    var s := m1 + "/" + x1;
    var more := m2[|m1| + 1..];
    assert s[..|m1|] == m1 && s[|m1|] == '/';
    assert s[..|m2|] == m2 && s[|m1| + 1..] == x1 && s[|m2|..] == "/" + x2;
    assert m2 == m1 + "/" + more;
    assert x1 == more + "/" + x2;
  }

  lemma SamePathIff(m1: string, p1: string, m2: string, p2: string)
    ensures BuildPath(m1, p1) == BuildPath(m2, p2) <==>
              || (MountOf(m1) == MountOf(m2) && SubPath(p1) == SubPath(p2))
              || Continues(MountOf(m1), SubPath(p1), MountOf(m2), SubPath(p2))
              || Continues(MountOf(m2), SubPath(p2), MountOf(m1), SubPath(p1))
  {
    PathNormalForm(m1, p1);
    PathNormalForm(m2, p2);
    hide MountOf, SubPath, BuildPath;
    assert forall m: string, sub: string :: m + "/data/" + sub == m + "/" + ("data/" + sub);
    JoinedIff(MountOf(m1), "data/" + SubPath(p1), MountOf(m2), "data/" + SubPath(p2));
    assert ("data/" + SubPath(p1))[5..] == SubPath(p1) && ("data/" + SubPath(p2))[5..] == SubPath(p2);
  }

  /** Two requests ask Vault the same exactly when they name the same version, "" and "0"
      both naming the latest, and mount and rest agree or one mount goes on into the
      other's path; mounts without an inner slash never do. */
  lemma SameQueryIff(m1: string, p1: string, v1: string, m2: string, p2: string, v2: string)
    ensures QueryFor(m1, p1, v1) == QueryFor(m2, p2, v2) <==>
              && (v1 == v2 || (Latest(v1) && Latest(v2)))
              && (|| (MountOf(m1) == MountOf(m2) && SubPath(p1) == SubPath(p2))
                  || Continues(MountOf(m1), SubPath(p1), MountOf(m2), SubPath(p2))
                  || Continues(MountOf(m2), SubPath(p2), MountOf(m1), SubPath(p1)))
    ensures '/' !in MountOf(m2) ==> !Continues(MountOf(m1), SubPath(p1), MountOf(m2), SubPath(p2))
  {
    hide MountOf, SubPath, BuildPath;
    SamePathIff(m1, p1, m2, p2);
    if '/' !in MountOf(m2) {
      forall more ensures MountOf(m2) != MountOf(m1) + "/" + more {
        assert (MountOf(m1) + "/" + more)[|MountOf(m1)|] == '/';
      }
    }
    hide Continues;
  }

  predicate AllSlashes(s: string) { forall i :: 0 <= i < |s| ==> s[i] == '/' }

  /** A mount as a caller may name it: not empty, and no slash at either end. */
  predicate BareMount(m: string) { m != "" && m[0] != '/' && m[|m| - 1] != '/' }

  lemma TrimAround(a: string, m: string, z: string)
    requires AllSlashes(a) && AllSlashes(z) && (m == "" || BareMount(m))
    ensures Trim(a + m + z, IsSlash) == m
  {
    var s := a + m + z;
    if m == "" {
      TrimLeftAt(s, IsSlash, |s|);
    } else {
      TrimLeftAt(s, IsSlash, |a|);
      assert s[|a|..] == m + z;
      TrimRightAt(m + z, IsSlash, |m|);
    }
  }

  lemma TrimFront(b: string, p: string)
    requires AllSlashes(b) && (p == "" || p[0] != '/')
    ensures TrimLeft(b + p, IsSlash) == p
  {
    TrimLeftAt(b + p, IsSlash, |b|);
  }

  /** The mount that is asked: the one named, outer slashes aside, or `secret` when there
      are only slashes. */
  function Asked(named: string): string { if named == "" then "secret" else named }

  lemma PathOf(mount: string, m: string, path: string, p: string)
    requires Trim(mount, IsSlash) == m && TrimLeft(path, IsSlash) == p
    ensures BuildPath(mount, path) == Asked(m) + if "data/" <= p then "/" + p else "/data/" + p
  {
    hide Trim, TrimLeft;
  }

  lemma DataInFront(p: string)
    ensures "data/" <= "data/" + p && "/" + ("data/" + p) == "/data/" + p
  {}

  lemma PathBuilt(mount: string, m: string, b: string, p: string)
    requires AllSlashes(b) && Trim(mount, IsSlash) == m
    ensures BuildPath(mount, b + ("data/" + p)) == Asked(m) + ("/data/" + p)
    ensures (p != "" ==> p[0] != '/') && !("data/" <= p) ==> BuildPath(mount, b + p) == Asked(m) + ("/data/" + p)
  {
    hide BuildPath, Asked, Trim, TrimLeft;
    TrimFront(b, "data/" + p);
    PathOf(mount, m, b + ("data/" + p), "data/" + p);
    DataInFront(p);
    if p == "" || p[0] != '/' {
      TrimFront(b, p);
      PathOf(mount, m, b + p, p);
    }
  }

  /** What is asked of a mount m named with any slashes around it, or not named at all:
      `data/p` below it, whether or not the caller wrote `data/`, with any slashes in
      front; and of a version, unless it is empty or "0", that version. */
  lemma QueryBuilt(a: string, m: string, z: string, b: string, p: string, version: string)
    requires AllSlashes(a) && AllSlashes(z) && AllSlashes(b) && (m == "" || BareMount(m))
    ensures var query := Query((if m == "" then "secret" else m) + "/data/" + p,
                               if version == "" || version == "0" then None else Some(version));
            && QueryFor(a + m + z, b + "data/" + p, version) == query
            && ((p != "" ==> p[0] != '/') && !("data/" <= p) ==> QueryFor(a + m + z, b + p, version) == query)
  {
    TrimAround(a, m, z);
    hide Trim, BuildPath;
    PathBuilt(a + m + z, m, b, p);
    assert b + "data/" + p == b + ("data/" + p);
    assert Asked(m) + "/data/" + p == Asked(m) + ("/data/" + p);
  }

  /** What Vault answers. */
  datatype Answer = Failed | NoSecret | NoData | DataNotObject | Data(data: Object)

  datatype Result<+T> = Ok(value: T) | Err(error: Error)

  datatype Error = ReadFailed | SecretNotFound | InvalidKvData | FieldNotFound

  /** `readKVv2` */
  function ReadKv(answer: Answer): Result<Object> {
    match answer
    case Failed => Err(ReadFailed)
    case NoSecret => Err(SecretNotFound)
    case NoData => Err(InvalidKvData)
    case DataNotObject => Err(InvalidKvData)
    case Data(data) => Ok(data)
  }

  /** `extractField`: the whole payload as JSON, a string field as it is, any other
      field as JSON. */
  function ExtractField(data: Object, field: string): Result<string> {
    if field == "" then Ok(Marshal(data))
    else if field !in data then Err(FieldNotFound)
    else
      match data[field]
      case Str(s) => Ok(s)
      case other => Ok(ValueText(other, COMPACT))
  }

  /** The whole payload as a text that decodes to it; a field as it is if it is a string,
      otherwise as a text that denotes it; an error only for a field that is not there. */
  lemma ExtractFieldMeans(data: Object, field: string)
    ensures ExtractField(data, field).Err? <==> field != "" && field !in data
    ensures ExtractField(data, field).Err? ==> ExtractField(data, field).error == FieldNotFound
    ensures field == "" && Flat(data) ==> Decode(ExtractField(data, field).value) == Decoded(data)
    ensures field != "" && field in data && data[field].Str? ==> ExtractField(data, field).value == data[field].s
    ensures field != "" && field in data && FlatValue(data[field]) && !data[field].Str? ==>
              Denotes(ExtractField(data, field).value, data[field])
  {
    hide Decode, Marshal, Denotes, ValueText;
    if field == "" && Flat(data) { DecodeMarshal(data); }
    if field in data && FlatValue(data[field]) { ValueTextDenotes(data[field], COMPACT); }
  }

  // ----- whole payload and template, against one field

  function Placeholder(prefix: string, key: string): string {
    "##" + (prefix + "." + key) + "##"
  }

  /** Names that can stand in a placeholder. */
  predicate Name(s: string) {
    '.' !in s && '#' !in s && '\n' !in s && Trimmed(s)
  }

  lemma PlaceholderRendered(prefix: string, key: string, secret: Secret)
    requires Name(prefix) && Name(key)
    ensures Rendered(Placeholder(prefix, key), secret) == JsonTemplate(prefix + "." + key, secret).text
  {
    hide JsonTemplate, ShapeOf;
    var body := prefix + "." + key;
    var shape := Piece("", body, Tail(""));
    assert Clean(shape);
    CleanIsLawful(shape);
    assert shape.Source() == Placeholder(prefix, key);
    OnlyShape(Placeholder(prefix, key));
    assert KeyPath(body) == body;
    assert Render(shape, LookupIn(secret), true).text == "" + LookupIn(secret)(body).text + "";
  }

  /** The payload's text is read back as the payload: always when it is flat, otherwise
      if the unmarshaller undoes its nested values' texts. */
  ghost predicate ReadsBack(unmarshal: Unmarshal, data: Object) {
    Faithful(unmarshal) && (Flat(data) || unmarshal(Marshal(data)) == Fields(data))
  }

  lemma PayloadRendered(data: Object, prefix: string, key: string, unmarshal: Unmarshal)
    requires ReadsBack(unmarshal, data) && Name(prefix) && Name(key) && key in data
    ensures Rendered(Placeholder(prefix, key), Unmarshalled(ExtractField(data, "").value, unmarshal))
            == if data[key].Nested? then "" else TrimSpace(Sprint(data[key]))
  {
    hide JsonTemplate, Rendered, Decode, Marshal;
    if Flat(data) { DecodeMarshal(data); }
    var secret := Unmarshalled(Marshal(data), unmarshal);
    PlaceholderRendered(prefix, key, secret);
    LookField(prefix, key, secret);
  }

  /** What a value looks like in a template. */
  function InTemplate(v: Value): string {
    match v
    case Null => "<nil>"
    case Bool(b) => if b then "true" else "false"
    case Str(s) => TrimSpace(s)
    case Int(n) => SprintInt(n)
    case Nested(_) => ""
    case Other(printed, _) => TrimSpace(printed)
  }

  lemma TrimmedSprint(v: Value)
    ensures InTemplate(v) == if v.Nested? then "" else TrimSpace(Sprint(v))
  {
    hide TrimSpace, SprintInt;
    match v
    case Null => TrimSpaceLength("<nil>");
    case Bool(b) => TrimSpaceLength(if b then "true" else "false");
    case Int(n) =>
      NumeralsTrimmed(n);
      TrimSpaceLength(SprintInt(n));
    case _ =>
  }

  /** Rendering `##prefix.key##` on the marshalled payload gives the field: a string
      trimmed, a number as `%v` prints it, null as `<nil>`, an object not at all. */
  lemma PayloadTemplate(data: Object, prefix: string, key: string, unmarshal: Unmarshal)
    requires ReadsBack(unmarshal, data) && Name(prefix) && Name(key) && key in data
    ensures Rendered(Placeholder(prefix, key), Unmarshalled(ExtractField(data, "").value, unmarshal))
            == InTemplate(data[key])
  {
    hide Rendered, ExtractField, Placeholder, TrimSpace, Sprint, InTemplate;
    PayloadRendered(data, prefix, key, unmarshal);
    TrimmedSprint(data[key]);
  }

  lemma NumeralsTrimmed(n: int)
    ensures Trimmed(Decimal(n)) && Trimmed(SprintInt(n))
  {
    hide Digits, StripZeros;
  }

  lemma IntegerTextsAgreeIff(n: int)
    ensures TrimSpace(SprintInt(n)) == TrimSpace(Decimal(n)) <==> -1_000_000 < n < 1_000_000
  {
    hide Decimal, SprintInt, TrimSpace;
    IntegerPrintsAsWritten(n);
    NumeralsTrimmed(n);
    TrimSpaceLength(Decimal(n));
    TrimSpaceLength(SprintInt(n));
  }

  /** `%v` and `json.Marshal` agree on which scalars. */
  lemma ScalarTextsAgreeIff(v: Value)
    requires FlatValue(v) && !v.Str?
    ensures TrimSpace(Sprint(v)) == TrimSpace(ValueText(v, COMPACT))
            <==> !v.Null? && (v.Int? ==> -1_000_000 < v.n < 1_000_000)
  {
    hide TrimSpace, SprintInt, Decimal;
    match v
    case Null =>
      TrimSpaceLength("<nil>");
      TrimSpaceLength("null");
    case Bool(_) =>
    case Int(n) =>
      IntegerTextsAgreeIff(n);
  }

  /** It equals the trimmed `extractField` of that key for every value except null
      and integers of seven digits or more. */
  lemma PayloadTemplateIsFieldIff(data: Object, prefix: string, key: string, unmarshal: Unmarshal)
    requires ReadsBack(unmarshal, data) && Name(prefix) && Name(key) && key in data && key != ""
    requires FlatValue(data[key])
    ensures Rendered(Placeholder(prefix, key), Unmarshalled(ExtractField(data, "").value, unmarshal))
            == TrimSpace(ExtractField(data, key).value)
            <==> !data[key].Null? && (data[key].Int? ==> -1_000_000 < data[key].n < 1_000_000)
  {
    hide Rendered, Decode, Marshal, TrimSpace, Placeholder;
    PayloadRendered(data, prefix, key, unmarshal);
    if !data[key].Str? { ScalarTextsAgreeIff(data[key]); }
  }
}
