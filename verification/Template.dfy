/** The template engine: a scan for `##(.*?)##` whose callback looks a key path up
    in the secret, threading the latch `canContinue` (template/template.go). */
module Template {
  import opened Text
  import opened Json

  // ----- what the engine does with one placeholder

  /** A secret's text together with what `json.Unmarshal` makes of it. */
  datatype Secret = Secret(raw: string, parsed: Parsed)

  function Unmarshalled(raw: string, unmarshal: Unmarshal): Secret { Secret(raw, unmarshal(raw)) }

  /** Replacement text, and whether later placeholders are still to be looked up. */
  datatype Looked = Looked(text: string, canContinue: bool)

  function JsonTemplate(path: string, secret: Secret): Looked {
    var jsonPath := Split(path, '.');
    if |jsonPath| < 2 then Looked(secret.raw, true)
    else if secret.parsed.NotAnObject? then Looked("", false)
    else
      var jsonKey := TrimSpace(jsonPath[1]);
      if jsonKey !in secret.parsed.fields then Looked("", true)
      else
        var value := secret.parsed.fields[jsonKey];
        if value.Nested? then Looked("", true)
        else Looked(TrimSpace(Sprint(value)), true)
  }

  /** How a placeholder's key path is replaced while the latch holds. */
  type Lookup = string -> Looked

  function LookupIn(secret: Secret): Lookup { path => JsonTemplate(path, secret) }

  // ----- the meaning of a template

  /** `##` at position i. */
  predicate Delimiter(t: string, i: int) {
    0 <= i && i + 2 <= |t| && t[i] == '#' && t[i + 1] == '#'
  }

  /** No newline from position i up to j. */
  predicate OneLine(t: string, i: int, j: int)
    requires 0 <= i <= j <= |t|
  {
    forall k :: i <= k < j ==> t[k] != '\n'
  }

  /** `##.*##` between i and the closing delimiter at j; `.` is any character but a newline. */
  predicate Match(t: string, i: int, j: int) {
    Delimiter(t, i) && i + 2 <= j && Delimiter(t, j) && OneLine(t, i + 2, j)
  }

  ghost predicate ShortestMatch(t: string, i: int, j: int) {
    Match(t, i, j) && forall j' :: Match(t, i, j') ==> j <= j'
  }

  /** Leftmost start, then shortest end. */
  ghost predicate FirstMatch(t: string, i: int, j: int) {
    ShortestMatch(t, i, j) && forall i', j' :: i' < i ==> !Match(t, i', j')
  }

  ghost predicate Unmatched(t: string) { forall i, j :: !Match(t, i, j) }

  /** A template cut into literals and placeholder bodies. */
  datatype Shape = Tail(literal: string) | Piece(literal: string, body: string, rest: Shape) {
    function Source(): string {
      match this
      case Tail(literal) => literal
      case Piece(literal, body, rest) => literal + "##" + body + "##" + rest.Source()
    }

    /** Each placeholder is the first match of what remains; the last literal holds none. */
    ghost predicate Lawful() {
      match this
      case Tail(literal) => Unmatched(literal)
      case Piece(literal, body, rest) =>
        FirstMatch(Source(), |literal|, |literal| + 2 + |body|) && rest.Lawful()
    }
  }

  /** The key path of a placeholder: its body without one leading `#`. */
  function KeyPath(body: string): string {
    if body != "" && body[0] == '#' then body[1..] else body
  }

  /** Literals unchanged, each placeholder looked up once, left to right, until the
      latch trips; every later placeholder is empty. */
  function Render(shape: Shape, look: Lookup, canContinue: bool): Looked {
    match shape
    case Tail(literal) => Looked(literal, canContinue)
    case Piece(literal, body, rest) =>
      var here := if canContinue then look(KeyPath(body)) else Looked("", false);
      var more := Render(rest, look, here.canContinue);
      Looked(literal + here.text + more.text, more.canContinue)
  }

  // ----- the regular expression engine's search

  /** The nearest delimiter at or after k that no newline hides. */
  function Close(t: string, k: nat): (r: Option<nat>)
    requires k <= |t|
    ensures r.Some? ==> k <= r.value && Delimiter(t, r.value)
    decreases |t| - k
  {
    if Delimiter(t, k) then Some(k)
    else if k < |t| && t[k] != '\n' then Close(t, k + 1)
    else None
  }

  /** The first match at or after k. */
  function Find(t: string, k: nat): (r: Option<(nat, nat)>)
    requires k <= |t|
    ensures r.Some? ==> k <= r.value.0 && r.value.0 + 2 <= r.value.1 && r.value.1 + 2 <= |t|
    decreases |t| - k
  {
    if Delimiter(t, k) && Close(t, k + 2).Some? then Some((k, Close(t, k + 2).value))
    else if k < |t| then Find(t, k + 1)
    else None
  }

  lemma {:induction false} CloseIsNearest(t: string, k: nat)
    requires k <= |t|
    ensures Close(t, k).Some? ==> OneLine(t, k, Close(t, k).value)
    ensures forall j :: k <= j && Delimiter(t, j) && OneLine(t, k, j) ==>
                          Close(t, k).Some? && Close(t, k).value <= j
    decreases |t| - k
  {
    if !Delimiter(t, k) && k < |t| && t[k] != '\n' {
      CloseIsNearest(t, k + 1);
    }
  }

  lemma {:induction false} FindIsFirst(t: string, k: nat)
    requires k <= |t|
    ensures Find(t, k).Some? ==>
              && ShortestMatch(t, Find(t, k).value.0, Find(t, k).value.1)
              && forall i, j :: k <= i < Find(t, k).value.0 ==> !Match(t, i, j)
    ensures Find(t, k).None? ==> forall i, j :: k <= i ==> !Match(t, i, j)
    decreases |t| - k
  {
    if Delimiter(t, k) { CloseIsNearest(t, k + 2); }
    if k < |t| { FindIsFirst(t, k + 1); }
  }

  /** The shape of the template from position k on. */
  function ShapeFrom(t: string, k: nat): Shape
    requires k <= |t|
    decreases |t| - k
  {
    match Find(t, k)
    case None => Tail(t[k..])
    case Some((i, j)) => Piece(t[k..i], t[i + 2..j], ShapeFrom(t, j + 2))
  }

  function ShapeOf(t: string): Shape { ShapeFrom(t, 0) }

  // ----- every template has exactly one lawful shape

  lemma MatchInSuffix(t: string, k: nat, i: int, j: int)
    requires k <= |t| && 0 <= i
    ensures Match(t[k..], i, j) <==> Match(t, k + i, k + j)
  {}

  /** Searching on from k is searching the remaining text. */
  lemma FoundFirstInSuffix(t: string, k: nat)
    requires k <= |t|
    ensures Find(t, k).None? ==> Unmatched(t[k..])
    ensures Find(t, k).Some? ==> FirstMatch(t[k..], Find(t, k).value.0 - k, Find(t, k).value.1 - k)
  {
    forall i, j | 0 <= i ensures Match(t[k..], i, j) <==> Match(t, k + i, k + j) {
      MatchInSuffix(t, k, i, j);
    }
    FindIsFirst(t, k);
    if Find(t, k).Some? {
      var (i, j) := Find(t, k).value;
      assert Match(t[k..], i - k, j - k) <==> Match(t, k + (i - k), k + (j - k));
    }
  }

  lemma CutSuffix(t: string, k: nat, i: nat, j: nat)
    requires k <= i && i + 2 <= j && j + 2 <= |t| && Delimiter(t, i) && Delimiter(t, j)
    ensures t[k..] == t[k..i] + "##" + t[i + 2..j] + "##" + t[j + 2..]
  {}

  lemma LawfulPiece(shape: Shape, t: string, i: int, j: int)
    requires shape.Piece? && shape.rest.Lawful()
    requires t == shape.literal + "##" + shape.body + "##" + shape.rest.Source()
    requires FirstMatch(t, i, j) && i == |shape.literal| && j == i + 2 + |shape.body|
    ensures shape.Lawful() && shape.Source() == t
  {}

  lemma LawfulStep(t: string, k: nat, i: nat, j: nat, rest: Shape)
    requires k <= |t| && Find(t, k) == Some((i, j))
    requires rest.Lawful() && rest.Source() == t[j + 2..]
    ensures var shape := Piece(t[k..i], t[i + 2..j], rest); shape.Lawful() && shape.Source() == t[k..]
  {
    FoundFirstInSuffix(t, k);
    assert t[k..] == t[k..i] + "##" + t[i + 2..j] + "##" + t[j + 2..] by {
      FindIsFirst(t, k);
      CutSuffix(t, k, i, j);
    }
    LawfulPiece(Piece(t[k..i], t[i + 2..j], rest), t[k..], i - k, j - k);
  }

  lemma LawfulEnd(t: string, k: nat)
    requires k <= |t| && Find(t, k).None?
    ensures Tail(t[k..]).Lawful()
  {
    FoundFirstInSuffix(t, k);
  }

  lemma {:induction false} ShapeExists(t: string, k: nat)
    requires k <= |t|
    ensures ShapeFrom(t, k).Lawful() && ShapeFrom(t, k).Source() == t[k..]
    decreases |t| - k
  {
    hide Find, FirstMatch, Unmatched;
    match Find(t, k)
    case None =>
      LawfulEnd(t, k);
    case Some((i, j)) =>
      ShapeExists(t, j + 2);
      LawfulStep(t, k, i, j, ShapeFrom(t, j + 2));
  }

  lemma {:induction false} ShapeUnique(a: Shape, b: Shape)
    requires a.Lawful() && b.Lawful() && a.Source() == b.Source()
    ensures a == b
  {
    TailIffUnmatched(a);
    TailIffUnmatched(b);
    if a.Piece? {
      var (i, j) := (|a.literal|, |a.literal| + 2 + |a.body|);
      FirstMatchUnique(a.Source(), i, j, |b.literal|, |b.literal| + 2 + |b.body|);
      PieceParts(a);
      PieceParts(b);
      ShapeUnique(a.rest, b.rest);
    }
  }

  lemma TailIffUnmatched(a: Shape)
    requires a.Lawful()
    ensures a.Tail? <==> Unmatched(a.Source())
  {}

  lemma FirstMatchUnique(t: string, i: int, j: int, i': int, j': int)
    requires FirstMatch(t, i, j) && FirstMatch(t, i', j')
    ensures i == i' && j == j'
  {}

  lemma PieceParts(a: Shape)
    requires a.Piece?
    ensures var t, i, j := a.Source(), |a.literal|, |a.literal| + 2 + |a.body|;
            j + 2 <= |t| && a.literal == t[..i] && a.body == t[i + 2..j] && a.rest.Source() == t[j + 2..]
  {}

  // ----- the scan

  /** The callback's trims, applied to a whole match. */
  function TrimMatch(s: string): string {
    TrimRight(TrimLeft(TrimSpace(s), IsHash), IsHash)
  }

  /** A shortest match has a body without `##` or closing `#`. */
  lemma BodyOfMatch(t: string, i: int, j: int)
    requires ShortestMatch(t, i, j)
    ensures var body := t[i + 2..j];
            && (forall k :: !Delimiter(body, k))
            && (body != "" ==> body[|body| - 1] != '#')
  {
    var body := t[i + 2..j];
    forall k | 0 <= k < |body| && body[k] == '#'
      ensures k + 1 < |body| && body[k + 1] != '#'
    {
      assert t[i + 2 + k] == '#';
      assert !Match(t, i, i + 2 + k);
      assert t[i + 3 + k] != '#';
    }
  }

  /** On a match the trims take the delimiters and at most one more leading `#`; the
      key path then neither starts nor ends with `#` and never contains `##`. */
  lemma TrimMatchIsKeyPath(t: string, i: int, j: int)
    requires ShortestMatch(t, i, j)
    ensures var body := t[i + 2..j]; var path := KeyPath(body);
            && TrimMatch(t[i..j + 2]) == path
            && (forall k :: !Delimiter(path, k))
            && (path != "" ==> path[0] != '#' && path[|path| - 1] != '#')
  {
    var body := t[i + 2..j];
    BodyOfMatch(t, i, j);
    assert t[i..j + 2] == "##" + body + "##";
    TrimDelimiters(body);
    KeyPathClean(body);
  }

  lemma KeyPathClean(body: string)
    requires forall k :: !Delimiter(body, k)
    requires body != "" ==> body[|body| - 1] != '#'
    ensures var path := KeyPath(body);
            && (forall k :: !Delimiter(path, k))
            && (path != "" ==> path[0] != '#' && path[|path| - 1] != '#')
  {
    if body != "" && body[0] == '#' {
      assert !Delimiter(body, 0);
      assert forall k :: Delimiter(body[1..], k) ==> Delimiter(body, k + 1);
    }
  }

  lemma TrimDelimiters(body: string)
    requires forall k :: !Delimiter(body, k)
    requires body != "" ==> body[|body| - 1] != '#'
    ensures TrimMatch("##" + body + "##") == KeyPath(body)
  {
    var s := "##" + body + "##";
    assert TrimSpace(s) == s by { TrimSpaceLength(s); }
    if body == "" {
      TrimLeftAt(s, IsHash, 4);
    } else {
      assert body[0] == '#' ==> body[1] != '#' by { assert !Delimiter(body, 0); }
      var path := KeyPath(body);
      var skip := 2 + |body| - |path|;
      TrimLeftAt(s, IsHash, skip);
      assert s[skip..] == path + "##";
      TrimRightAt(path + "##", IsHash, |path|);
    }
  }

  /** `ReplaceAllStringFunc` with the callback's latch: what is written so far is
      never scanned again, and the result is the rendering of the template's shape. */
  method ReplaceAll(templ: string, look: Lookup) returns (result: string)
    ensures forall shape: Shape :: shape.Lawful() && shape.Source() == templ ==>
              result == Render(shape, look, true).text
  {
    hide RenderFrom, TrimMatch, Render, Find;
    var canContinue := true;
    result := "";
    var position := 0;
    var next := Find(templ, 0);
    ghost var whole := RenderFrom(templ, 0, look, true);
    assert result + whole == whole;
    while next.Some?
      invariant 0 <= position <= |templ|
      invariant next == Find(templ, position)
      invariant result + RenderFrom(templ, position, look, canContinue) == whole
      decreases |templ| - position
    {
      var (i, j) := next.value;
      RenderStep(templ, position, look, canContinue, result);
      var s := TrimMatch(templ[i..j + 2]);
      var res := "";
      if canContinue {
        var looked := look(s);
        res, canContinue := looked.text, looked.canContinue;
      }
      result := result + templ[position..i] + res;
      position := j + 2;
      next := Find(templ, position);
    }
    RenderEnd(templ, position, look, canContinue);
    result := result + templ[position..];
    OnlyRendering(templ, look);
  }

  /** Every lawful shape of t is rendered like the one the engine finds. */
  lemma OnlyRendering(t: string, look: Lookup)
    ensures forall shape: Shape :: shape.Lawful() && shape.Source() == t ==>
              Render(shape, look, true).text == RenderFrom(t, 0, look, true)
  {
    OnlyShape(t);
  }

  /** A lawful shape of t is the one the engine finds. */
  lemma OnlyShape(t: string)
    ensures ShapeOf(t).Lawful() && ShapeOf(t).Source() == t
    ensures forall shape: Shape :: shape.Lawful() && shape.Source() == t ==> shape == ShapeOf(t)
  {
    ShapeExists(t, 0);
    assert t[0..] == t;
    forall shape: Shape | shape.Lawful() && shape.Source() == t
      ensures shape == ShapeOf(t)
    {
      ShapeUnique(shape, ShapeOf(t));
    }
  }

  /** The rendering of a template; its shape is the only lawful one. */
  function Rendered(templ: string, secret: Secret): string {
    Render(ShapeOf(templ), LookupIn(secret), true).text
  }

  /** The template with a secret put in. */
  method Substitute(templ: string, secret: Secret) returns (result: string)
    ensures forall shape: Shape :: shape.Lawful() && shape.Source() == templ ==>
              result == Render(shape, LookupIn(secret), true).text
    ensures result == Rendered(templ, secret)
  {
    result := ReplaceAll(templ, LookupIn(secret));
    OnlyShape(templ);
  }

  /** What the scan still has to write from position k on. */
  function RenderFrom(t: string, k: nat, look: Lookup, canContinue: bool): string
    requires k <= |t|
  {
    Render(ShapeFrom(t, k), look, canContinue).text
  }

  lemma RenderStep(t: string, k: nat, look: Lookup, canContinue: bool, done: string)
    requires k <= |t| && Find(t, k).Some?
    ensures
      var (i, j) := Find(t, k).value;
      var here := if canContinue then look(TrimMatch(t[i..j + 2])) else Looked("", false);
      done + RenderFrom(t, k, look, canContinue)
      == done + t[k..i] + here.text + RenderFrom(t, j + 2, look, here.canContinue)
  {
    hide Find, TrimMatch, KeyPath;
    var (i, j) := Find(t, k).value;
    assert TrimMatch(t[i..j + 2]) == KeyPath(t[i + 2..j]) by {
      FindIsFirst(t, k);
      TrimMatchIsKeyPath(t, i, j);
    }
  }

  lemma RenderEnd(t: string, k: nat, look: Lookup, canContinue: bool)
    requires k <= |t| && Find(t, k).None?
    ensures RenderFrom(t, k, look, canContinue) == t[k..]
  {}
}
