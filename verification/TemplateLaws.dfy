/** Laws of the template engine that relate several renderings. */
module TemplateLaws {
  import opened Text
  import opened Json
  import opened Template

  // ----- rendering a concatenation

  function TailOf(shape: Shape): string {
    match shape
    case Tail(literal) => literal
    case Piece(_, _, rest) => TailOf(rest)
  }

  /** b after a, the literals that meet joined into one. */
  function Append(a: Shape, b: Shape): Shape {
    match (a, b)
    case (Piece(l, x, r), _) => Piece(l, x, Append(r, b))
    case (Tail(l), Tail(m)) => Tail(l + m)
    case (Tail(l), Piece(m, y, s)) => Piece(l + m, y, s)
  }

  /** No placeholder opens inside the literal l when t follows it. */
  ghost predicate NoCrossing(l: string, t: string) {
    forall i, j :: i < |l| ==> !Match(l + t, i, j)
  }

  lemma {:induction false} AppendSource(a: Shape, b: Shape)
    ensures Append(a, b).Source() == a.Source() + b.Source()
  {
    if a.Piece? { AppendSource(a.rest, b); }
  }

  /** A first match stays the first match whatever text is added behind. */
  lemma FirstMatchExtends(t: string, i: int, j: int, more: string)
    requires FirstMatch(t, i, j)
    ensures FirstMatch(t + more, i, j)
  {
    var u := t + more;
    assert forall x :: 0 <= x < |t| ==> u[x] == t[x];
    forall i', j' | 0 <= i' <= i && i' + 2 <= j' && Match(u, i', j')
      ensures Match(t, i', if j' <= j then j' else j)
    {}
    assert Match(u, i, j);
  }

  /** A literal in front that opens no placeholder moves the first match along. */
  lemma FirstMatchShifts(l: string, t: string, i: int, j: int)
    requires FirstMatch(t, i, j) && NoCrossing(l, t)
    ensures FirstMatch(l + t, |l| + i, |l| + j)
  {
    var u := l + t;
    assert u[|l|..] == t;
    forall x, y | 0 <= x ensures Match(t, x, y) <==> Match(u, |l| + x, |l| + y) {
      MatchInSuffix(u, |l|, x, y);
    }
    forall i', j' | i' < |l| + i ensures !Match(u, i', j') {
      if |l| <= i' { assert Match(u, i', j') <==> Match(t, i' - |l|, j' - |l|); }
    }
    var start := |l| + i;
    forall j' | Match(u, start, j') ensures |l| + j <= j' {
      assert Match(t, i, j' - |l|);
    }
  }

  lemma UnmatchedJoin(l: string, t: string)
    requires Unmatched(t) && NoCrossing(l, t)
    ensures Unmatched(l + t)
  {
    var u := l + t;
    assert u[|l|..] == t;
    forall i, j ensures !Match(u, i, j) {
      if |l| <= i { MatchInSuffix(u, |l|, i - |l|, j - |l|); }
    }
  }

  lemma {:induction false} AppendLawful(a: Shape, b: Shape)
    requires a.Lawful() && b.Lawful()
    ensures Append(a, b).Lawful() <==> NoCrossing(TailOf(a), b.Source())
  {
    AppendSource(a, b);
    match a
    case Piece(l, x, r) =>
      AppendLawful(r, b);
      FirstMatchExtends(a.Source(), |l|, |l| + 2 + |x|, b.Source());
    case Tail(l) =>
      AppendTailLawful(l, b);
  }

  lemma AppendTailLawful(l: string, b: Shape)
    requires b.Lawful()
    ensures Append(Tail(l), b).Lawful() <==> NoCrossing(l, b.Source())
  {
    AppendSource(Tail(l), b);
    match b
    case Tail(m) =>
      if NoCrossing(l, m) { UnmatchedJoin(l, m); }
    case Piece(m, y, s) =>
      if NoCrossing(l, b.Source()) { FirstMatchShifts(l, b.Source(), |m|, |m| + 2 + |y|); }
  }

  /** The placeholders of t1 ++ t2 are those of t1 followed by those of t2 exactly
      when none opens in the literal that ends t1. */
  lemma ConcatenationIff(t1: string, t2: string)
    ensures ShapeOf(t1 + t2) == Append(ShapeOf(t1), ShapeOf(t2))
            <==> NoCrossing(TailOf(ShapeOf(t1)), t2)
  {
    OnlyShape(t1);
    OnlyShape(t2);
    OnlyShape(t1 + t2);
    AppendSource(ShapeOf(t1), ShapeOf(t2));
    AppendLawful(ShapeOf(t1), ShapeOf(t2));
  }

  /** Rendering a, then b with the latch as a leaves it. */
  function RenderBoth(a: Shape, b: Shape, look: Lookup, canContinue: bool): Looked {
    var first := Render(a, look, canContinue);
    var second := Render(b, look, first.canContinue);
    Looked(first.text + second.text, second.canContinue)
  }

  lemma {:induction false} RenderAppend(a: Shape, b: Shape, look: Lookup, canContinue: bool)
    ensures Render(Append(a, b), look, canContinue) == RenderBoth(a, b, look, canContinue)
  {
    if a.Piece? {
      hide KeyPath;
      var here := if canContinue then look(KeyPath(a.body)) else Looked("", false);
      RenderAppend(a.rest, b, look, here.canContinue);
      var first, more := Render(a.rest, look, here.canContinue), RenderBoth(a.rest, b, look, here.canContinue);
      assert Render(Append(a, b), look, canContinue) == Looked(a.literal + here.text + more.text, more.canContinue);
      assert Render(a, look, canContinue) == Looked(a.literal + here.text + first.text, first.canContinue);
    }
  }

  /** When no placeholder crosses, substitution threads the latch through both parts. */
  lemma RenderConcatenation(t1: string, t2: string, look: Lookup, canContinue: bool)
    requires NoCrossing(TailOf(ShapeOf(t1)), t2)
    ensures Render(ShapeOf(t1 + t2), look, canContinue) == RenderBoth(ShapeOf(t1), ShapeOf(t2), look, canContinue)
  {
    ConcatenationIff(t1, t2);
    RenderAppend(ShapeOf(t1), ShapeOf(t2), look, canContinue);
  }

  /** A last literal without `#` is enough for that. */
  lemma UnhashedConcatenation(t1: string, t2: string, look: Lookup, canContinue: bool)
    requires '#' !in TailOf(ShapeOf(t1))
    ensures Render(ShapeOf(t1 + t2), look, canContinue) == RenderBoth(ShapeOf(t1), ShapeOf(t2), look, canContinue)
  {
    var l := TailOf(ShapeOf(t1));
    forall i, j | i < |l| ensures !Match(l + t2, i, j) {
      if 0 <= i { assert (l + t2)[i] == l[i]; }
    }
    RenderConcatenation(t1, t2, look, canContinue);
  }

  lemma OpensEarlier(l: string, t: string, look: Lookup)
    requires !NoCrossing(l, t) && forall path :: look(path) == Looked("x", true)
    ensures Render(ShapeOf(l + t), look, true).text != Render(Append(Tail(l), ShapeOf(t)), look, true).text
  {
    var u := l + t;
    var i, j :| i < |l| && Match(u, i, j);
    OnlyShape(u);
    OnlyShape(t);
    var joined, apart := ShapeOf(u), Append(Tail(l), ShapeOf(t));
    hide ShapeOf;
    assert joined.Piece? && |joined.literal| <= i;
    var k := |joined.literal|;
    assert u[k] == '#' && l[k] == u[k];
    assert Render(joined, look, true).text[k] == 'x';
    assert Render(apart, look, true).text[k] == l[k];
  }

  lemma JoinBehind(literal: string, body: string, rest: string, t: string)
    ensures (literal + "##" + body + "##" + rest) + t == literal + "##" + body + "##" + (rest + t)
  {}

  /** A first placeholder stays the first one whatever text is added behind. */
  lemma PieceInFront(a: Shape, t: string)
    requires a.Lawful() && a.Piece?
    ensures ShapeOf(a.Source() + t) == Piece(a.literal, a.body, ShapeOf(a.rest.Source() + t))
  {
    var longer := Piece(a.literal, a.body, ShapeOf(a.rest.Source() + t));
    OnlyShape(a.rest.Source() + t);
    FirstMatchExtends(a.Source(), |a.literal|, |a.literal| + 2 + |a.body|, t);
    JoinBehind(a.literal, a.body, a.rest.Source(), t);
    hide ShapeOf, FirstMatch;
    LawfulPiece(longer, a.Source() + t, |a.literal|, |a.literal| + 2 + |a.body|);
    OnlyShape(a.Source() + t);
  }

  lemma FrontCancels(front: string, x: string, y: string)
    requires front + x == front + y
    ensures x == y
  {
    assert (front + x)[|front|..] == x && (front + y)[|front|..] == y;
  }

  lemma {:induction false} CrossingShows(a: Shape, t: string, look: Lookup)
    requires a.Lawful() && !NoCrossing(TailOf(a), t) && forall path :: look(path) == Looked("x", true)
    ensures Render(ShapeOf(a.Source() + t), look, true).text != Render(Append(a, ShapeOf(t)), look, true).text
  {
    match a
    case Tail(l) =>
      OpensEarlier(l, t, look);
    case Piece(l, x, r) =>
      CrossingShows(r, t, look);
      PieceInFront(a, t);
      hide ShapeOf;
      var joined := Render(ShapeOf(r.Source() + t), look, true).text;
      var apart := Render(Append(r, ShapeOf(t)), look, true).text;
      assert Render(ShapeOf(a.Source() + t), look, true).text == l + "x" + joined;
      assert Render(Append(a, ShapeOf(t)), look, true).text == l + "x" + apart;
      if l + "x" + joined == l + "x" + apart {
        FrontCancels(l + "x", joined, apart);
      }
  }

  /** Substitution is a homomorphism that threads the latch, for every callback, exactly
      when no placeholder opens in the literal that ends t1. */
  lemma RenderConcatenationIff(t1: string, t2: string)
    ensures (forall look: Lookup, canContinue ::
               Render(ShapeOf(t1 + t2), look, canContinue) == RenderBoth(ShapeOf(t1), ShapeOf(t2), look, canContinue))
            <==> NoCrossing(TailOf(ShapeOf(t1)), t2)
  {
    hide Render, ShapeOf, NoCrossing, RenderBoth;
    if NoCrossing(TailOf(ShapeOf(t1)), t2) {
      forall look: Lookup, canContinue
        ensures Render(ShapeOf(t1 + t2), look, canContinue) == RenderBoth(ShapeOf(t1), ShapeOf(t2), look, canContinue)
      {
        RenderConcatenation(t1, t2, look, canContinue);
      }
    } else {
      var look: Lookup := path => Looked("x", true);
      OnlyShape(t1);
      CrossingShows(ShapeOf(t1), t2, look);
      RenderAppend(ShapeOf(t1), ShapeOf(t2), look, true);
    }
  }

  // ----- the latch

  /** The template with every placeholder replaced on its own. */
  function Fill(shape: Shape, text: string -> string): string {
    match shape
    case Tail(literal) => literal
    case Piece(literal, body, rest) => literal + text(KeyPath(body)) + Fill(rest, text)
  }

  /** What each key path finds in the secret. */
  function TextIn(secret: Secret): string -> string { path => JsonTemplate(path, secret).text }

  lemma FoundInFields(path: string, secret: Secret)
    requires secret.parsed.Fields?
    ensures LookupIn(secret)(path) == Looked(TextIn(secret)(path), true)
  {
    hide Split, TrimSpace, Sprint;
  }

  /** With a secret that decodes to an object the latch never trips: rendering is a
      pointwise map over the placeholders. */
  lemma {:induction false} DecodedSecretFills(shape: Shape, secret: Secret)
    requires secret.parsed.Fields?
    ensures Render(shape, LookupIn(secret), true) == Looked(Fill(shape, TextIn(secret)), true)
  {
    if shape.Piece? {
      hide LookupIn, TextIn, KeyPath;
      FoundInFields(KeyPath(shape.body), secret);
      DecodedSecretFills(shape.rest, secret);
    }
  }

  /** Placeholders replaced by the raw secret up to the first dotted one; it and all
      later ones are empty. */
  function FillUntilDotted(shape: Shape, raw: string): string {
    match shape
    case Tail(literal) => literal
    case Piece(literal, body, rest) =>
      if '.' in KeyPath(body) then literal + Fill(rest, path => "")
      else literal + raw + FillUntilDotted(rest, raw)
  }

  lemma {:induction false} TrippedLatchEmpties(shape: Shape, look: Lookup)
    ensures Render(shape, look, false) == Looked(Fill(shape, path => ""), false)
  {
    if shape.Piece? { TrippedLatchEmpties(shape.rest, look); }
  }

  lemma {:induction false} UndecodedSecretFills(shape: Shape, secret: Secret)
    requires secret.parsed.NotAnObject?
    ensures Render(shape, LookupIn(secret), true).text == FillUntilDotted(shape, secret.raw)
  {
    if shape.Piece? {
      var path := KeyPath(shape.body);
      assert LookupIn(secret)(path) == JsonTemplate(path, secret);
      if '.' in path {
        TrippedLatchEmpties(shape.rest, LookupIn(secret));
      } else {
        UndecodedSecretFills(shape.rest, secret);
      }
    }
  }

  // ----- when the decoded secret does not matter

  /** The shape has a placeholder with this key path. */
  predicate Names(shape: Shape, path: string) {
    shape.Piece? && (KeyPath(shape.body) == path || Names(shape.rest, path))
  }

  ghost predicate Undotted(shape: Shape) { forall path :: Names(shape, path) ==> '.' !in path }

  lemma {:induction false} UndottedFills(shape: Shape, secret: Secret)
    requires Undotted(shape)
    ensures Render(shape, LookupIn(secret), true).text == Fill(shape, path => secret.raw)
  {
    if shape.Piece? {
      var path := KeyPath(shape.body);
      assert Names(shape, path);
      assert LookupIn(secret)(path) == Looked(secret.raw, true) by { SplitNone(path, '.'); }
      assert forall p :: Names(shape.rest, p) ==> Names(shape, p);
      UndottedFills(shape.rest, secret);
    }
  }

  lemma {:induction false} LongerTexts(shape: Shape, f: string -> string, g: string -> string, path: string)
    requires forall p :: |f(p)| >= |g(p)|
    ensures |Fill(shape, f)| >= |Fill(shape, g)|
    ensures Names(shape, path) && |f(path)| > |g(path)| ==> |Fill(shape, f)| > |Fill(shape, g)|
  {
    if shape.Piece? {
      assert |f(KeyPath(shape.body))| >= |g(KeyPath(shape.body))|;
      LongerTexts(shape.rest, f, g, path);
    }
  }

  lemma SegmentText(path: string, secret: Secret)
    requires secret.parsed.Fields? && |Split(path, '.')| >= 2
    ensures JsonTemplate(path, secret).text == FieldText(secret.parsed.fields, TrimSpace(Split(path, '.')[1]))
  {
    hide TrimSpace, Split, Sprint;
  }

  lemma DottedText(path: string, secret: Secret)
    requires secret.parsed.Fields? && '.' in path
    ensures |Split(path, '.')| >= 2
            && TextIn(secret)(path) == FieldText(secret.parsed.fields, TrimSpace(Split(path, '.')[1]))
  {
    hide TrimSpace, Split, JsonTemplate, FieldText;
    SegmentText(path, secret);
  }

  lemma UndottedText(path: string, secret: Secret)
    requires '.' !in path
    ensures TextIn(secret)(path) == secret.raw
  {
    hide TrimSpace, Split, Sprint;
  }

  lemma OneFieldMore(path: string, more: Secret, less: Secret, key: string)
    requires more.raw == less.raw && more.parsed == Fields(map[key := Str("x")]) && less.parsed == Fields(map[])
    ensures |TextIn(more)(path)| >= |TextIn(less)(path)|
    ensures '.' in path && (|Split(path, '.')| >= 2 ==> key == TrimSpace(Split(path, '.')[1])) ==>
              |TextIn(more)(path)| > |TextIn(less)(path)|
  {
    TrimSpaceLength("x");
    hide TrimSpace, Split, TextIn;
    if '.' in path {
      DottedText(path, more);
      DottedText(path, less);
    } else {
      UndottedText(path, more);
      UndottedText(path, less);
    }
  }

  lemma LongerRendering(shape: Shape, more: Secret, less: Secret, path: string)
    requires more.parsed.Fields? && less.parsed.Fields? && Names(shape, path)
    requires forall p :: |TextIn(more)(p)| >= |TextIn(less)(p)|
    requires |TextIn(more)(path)| > |TextIn(less)(path)|
    ensures Render(shape, LookupIn(more), true).text != Render(shape, LookupIn(less), true).text
  {
    hide TextIn, Fill, Render, Names, LookupIn;
    DecodedSecretFills(shape, more);
    DecodedSecretFills(shape, less);
    LongerTexts(shape, TextIn(more), TextIn(less), path);
  }

  /** A placeholder with a dot tells two secrets with the same text apart. */
  lemma DottedDepends(shape: Shape, raw: string, path: string) returns (more: Secret, less: Secret)
    requires Names(shape, path) && '.' in path
    ensures more.raw == less.raw == raw
    ensures Render(shape, LookupIn(more), true).text != Render(shape, LookupIn(less), true).text
  {
    hide TrimSpace, Split, TextIn, Fill, Render, Names, LookupIn;
    var key := if |Split(path, '.')| >= 2 then TrimSpace(Split(path, '.')[1]) else "";
    more, less := Secret(raw, Fields(map[key := Str("x")])), Secret(raw, Fields(map[]));
    forall p ensures |TextIn(more)(p)| >= |TextIn(less)(p)| { OneFieldMore(p, more, less, key); }
    OneFieldMore(path, more, less, key);
    LongerRendering(shape, more, less, path);
  }

  /** A template puts in the raw secret everywhere, whatever the secret decodes to,
      exactly when no placeholder has a dot. */
  lemma RawTextIff(shape: Shape, raw: string)
    ensures (forall parsed: Parsed ::
               Render(shape, LookupIn(Secret(raw, parsed)), true).text == Fill(shape, path => raw))
            <==> Undotted(shape)
  {
    hide Render, Fill, Names;
    if Undotted(shape) {
      forall parsed: Parsed
        ensures Render(shape, LookupIn(Secret(raw, parsed)), true).text == Fill(shape, path => raw)
      {
        UndottedFills(shape, Secret(raw, parsed));
      }
    } else {
      var path :| Names(shape, path) && '.' in path;
      var more, less := DottedDepends(shape, raw, path);
      assert more == Secret(raw, more.parsed) && less == Secret(raw, less.parsed);
    }
  }

  // ----- templates written without stray `#`

  /** No `#` outside delimiters and no newline inside a placeholder. */
  predicate Clean(shape: Shape) {
    match shape
    case Tail(literal) => '#' !in literal
    case Piece(literal, body, rest) =>
      '#' !in literal && '#' !in body && '\n' !in body && Clean(rest)
  }

  lemma CleanFirstMatch(literal: string, body: string, rest: string)
    requires '#' !in literal && '#' !in body && '\n' !in body
    ensures FirstMatch(literal + "##" + body + "##" + rest, |literal|, |literal| + 2 + |body|)
  {}

  lemma {:induction false} CleanIsLawful(shape: Shape)
    requires Clean(shape)
    ensures shape.Lawful()
  {
    if shape.Piece? {
      CleanFirstMatch(shape.literal, shape.body, shape.rest.Source());
      CleanIsLawful(shape.rest);
    }
  }

  // ----- placeholders that name a field

  /** What a key finds in a decoded secret: nothing for a missing key or a nested
      object, otherwise the printed value without outer blanks. */
  function FieldText(fields: Object, key: string): string {
    if key !in fields || fields[key].Nested? then "" else TrimSpace(Sprint(fields[key]))
  }

  lemma FirstSegment(key: string, more: string)
    requires '.' !in key && (more == "" || more[0] == '.')
    ensures Split(key + more, '.')[0] == key
  {
    hide Split;
    if more == "" {
      SplitNone(key, '.');
      assert key + more == key;
    } else {
      SplitFirst(key, '.', more[1..]);
      assert key + more == key + ['.'] + more[1..];
    }
  }

  lemma SecondSegment(prefix: string, key: string, more: string)
    requires '.' !in prefix && '.' !in key && (more == "" || more[0] == '.')
    ensures |Split(prefix + "." + key + more, '.')| >= 2 && Split(prefix + "." + key + more, '.')[1] == key
  {
    hide Split;
    FirstSegment(key, more);
    SplitFirst(prefix, '.', key + more);
    assert prefix + "." + key + more == prefix + ['.'] + (key + more);
  }

  /** In a dotted path the second segment alone decides, blanks around it aside. */
  lemma SecondSegmentDecides(prefix: string, key: string, more: string, secret: Secret)
    requires secret.parsed.Fields? && '.' !in prefix && '.' !in key
    requires more == "" || more[0] == '.'
    ensures JsonTemplate(prefix + "." + key + more, secret)
            == Looked(FieldText(secret.parsed.fields, TrimSpace(key)), true)
  {
    hide TrimSpace, Sprint, Split;
    SecondSegment(prefix, key, more);
  }

  /** `prefix.key` looks the key up, whatever the prefix. */
  lemma LookField(prefix: string, key: string, secret: Secret)
    requires secret.parsed.Fields? && '.' !in prefix && '.' !in key && Trimmed(key)
    ensures JsonTemplate(prefix + "." + key, secret) == Looked(FieldText(secret.parsed.fields, key), true)
  {
    TrimSpaceLength(key);
    hide JsonTemplate, TrimSpace, FieldText;
    SecondSegmentDecides(prefix, key, "", secret);
    assert prefix + "." + key + "" == prefix + "." + key;
  }
}
