/** Go's `http.Header`: names are compared after canonicalisation, which for header
    names in the sense of section 5.6.2 of RFC 9110 means ignoring case (section 5.1). */
module Headers {
  import opened Text

  type Header = map<string, seq<string>>

  predicate IsLower(c: char) { 'a' <= c <= 'z' }

  predicate IsUpper(c: char) { 'A' <= c <= 'Z' }

  function ToLower(c: char): char { if IsUpper(c) then ((c as int) + 32) as char else c }

  function ToUpper(c: char): char { if IsLower(c) then ((c as int) - 32) as char else c }

  /** A character of a token. */
  predicate IsTokenChar(c: char) {
    IsLower(c) || IsUpper(c) || IsDigit(c) || c in "!#$%&'*+-.^_`|~"
  }

  predicate IsName(s: string) { forall i :: 0 <= i < |s| ==> IsTokenChar(s[i]) }

  /** Upper case first and after a hyphen, lower case elsewhere. */
  function CanonicalFrom(s: string, upper: bool): (r: string)
    ensures |r| == |s|
  {
    if s == "" then ""
    else
      var c := if upper then ToUpper(s[0]) else ToLower(s[0]);
      [c] + CanonicalFrom(s[1..], c == '-')
  }

  /** `textproto.CanonicalMIMEHeaderKey`: a string that is no name stays as it is. */
  function Canonical(s: string): string {
    if IsName(s) then CanonicalFrom(s, true) else s
  }

  function Lower(s: string): (r: string)
    ensures |r| == |s|
  {
    if s == "" then "" else [ToLower(s[0])] + Lower(s[1..])
  }

  lemma {:induction false} CanonicalFromName(s: string, upper: bool)
    requires IsName(s)
    ensures IsName(CanonicalFrom(s, upper))
    ensures CanonicalFrom(CanonicalFrom(s, upper), upper) == CanonicalFrom(s, upper)
    ensures Lower(CanonicalFrom(s, upper)) == Lower(s)
  {
    if s != "" {
      var c := if upper then ToUpper(s[0]) else ToLower(s[0]);
      var tail := CanonicalFrom(s[1..], c == '-');
      CanonicalFromName(s[1..], c == '-');
      CaseOfTokenChar(s[0]);
      hide IsTokenChar, ToUpper, ToLower;
      assert CanonicalFrom(s, upper) == [c] + tail;
    }
  }

  lemma CaseOfTokenChar(c: char)
    requires IsTokenChar(c)
    ensures IsTokenChar(ToUpper(c)) && IsTokenChar(ToLower(c))
    ensures ToUpper(ToUpper(c)) == ToUpper(c) && ToLower(ToLower(c)) == ToLower(c)
    ensures ToLower(ToUpper(c)) == ToLower(c)
    ensures ToUpper(c) == '-' <==> c == '-'
    ensures ToLower(c) == '-' <==> c == '-'
  {}

  lemma {:induction false} CanonicalFromEqual(a: string, b: string, upper: bool)
    requires Lower(a) == Lower(b)
    ensures CanonicalFrom(a, upper) == CanonicalFrom(b, upper)
  {
    if a != "" {
      assert Lower(a)[0] == Lower(b)[0] && Lower(a)[1..] == Lower(b)[1..];
      var c := if upper then ToUpper(a[0]) else ToLower(a[0]);
      CanonicalFromEqual(a[1..], b[1..], c == '-');
    }
  }

  /** Two header names share a canonical form exactly when they agree up to case. */
  lemma SameNameIff(a: string, b: string)
    requires IsName(a) && IsName(b)
    ensures Canonical(a) == Canonical(b) <==> Lower(a) == Lower(b)
  {
    CanonicalFromName(a, true);
    CanonicalFromName(b, true);
    if Lower(a) == Lower(b) { CanonicalFromEqual(a, b, true); }
  }

  lemma {:induction false} CanonicalFromAt(s: string, upper: bool, i: nat)
    requires i < |s|
    ensures CanonicalFrom(s, upper)[i]
            == if (i == 0 && upper) || (i > 0 && s[i - 1] == '-') then ToUpper(s[i]) else ToLower(s[i])
  {
    if i > 0 {
      var c := if upper then ToUpper(s[0]) else ToLower(s[0]);
      assert c == '-' <==> s[0] == '-';
      CanonicalFromAt(s[1..], c == '-', i - 1);
    }
  }

  /** A name is canonical with a capital first and after each hyphen, and nowhere else. */
  lemma CanonicalAt(s: string, i: nat)
    requires IsName(s) && i < |s|
    ensures |Canonical(s)| == |s|
    ensures Canonical(s)[i] == if i == 0 || s[i - 1] == '-' then ToUpper(s[i]) else ToLower(s[i])
  {
    CanonicalFromAt(s, true, i);
  }

  // ----- the operations

  /** All values under a name. */
  function Values(h: Header, name: string): Option<seq<string>> {
    if Canonical(name) in h then Some(h[Canonical(name)]) else None
  }

  /** `Header.Get`: the first value, or the empty string. */
  function Get(h: Header, name: string): string {
    match Values(h, name)
    case None => ""
    case Some(values) => if values == [] then "" else values[0]
  }

  /** `Header.Del` */
  function Del(h: Header, name: string): Header { h - {Canonical(name)} }

  /** `Header.Set` */
  function Set(h: Header, name: string, value: string): Header { h[Canonical(name) := [value]] }

  /** Whatever case a name is written in: what was set is got, what was deleted is gone,
      and names that differ in more than case are left alone. */
  lemma OperationsIgnoreCase(h: Header, a: string, b: string, value: string)
    requires IsName(a) && IsName(b)
    ensures Lower(a) == Lower(b) ==> Get(Set(h, a, value), b) == value && Values(Del(h, a), b) == None
    ensures Lower(a) != Lower(b) ==>
              Values(Set(h, a, value), b) == Values(h, b) && Values(Del(h, a), b) == Values(h, b)
  {
    SameNameIff(a, b);
    hide Canonical, Lower;
  }

  /** Of several values the first is got, of none the empty string. */
  lemma GetIsFirst(h: Header, name: string, first: string, rest: seq<string>)
    ensures Values(h, name) == Some([first] + rest) ==> Get(h, name) == first
    ensures Values(h, name) == None ==> Get(h, name) == ""
  {
    assert ([first] + rest)[0] == first;
    hide Canonical;
  }
}
