/** The proxy's request pipeline: five stages that may each refuse, then the
    rewriting of the outgoing headers (server/rewrite_request.go, server/template.go). */
module Rewrite {
  import opened Text
  import opened Headers
  import opened Template

  const FORWARD_TO := "X-Hasura-Forward-To"
  const SECRET_PROVIDER := "X-Hasura-Secret-Provider"
  const SECRET_HEADER := "X-Hasura-Secret-Header"

  const BAD_REQUEST := 400

  // ----- what the pipeline works with

  datatype RequestConf = RequestConf(destinationUrl: string, secretProvider: string, headerTemplate: string)

  datatype Url = Url(scheme: string, host: string)

  datatype FetchResult = NotConfigured | Unavailable | Fetched(secret: Secret)

  /** Any provider: how it answers a request's headers, and the headers that configure it. */
  datatype Provider = Provider(fetch: Header -> FetchResult, configHeaders: seq<string>)

  /** The surroundings: the providers by name, and `url.Parse`. */
  datatype Server = Server(providers: map<string, Provider>, parse: string -> Option<Url>)

  datatype Message =
    | MissingHeaders(names: seq<string>)
    | BadDestination
    | UnknownProvider(name: string)
    | ProviderNotConfigured
    | SecretUnavailable
    | BadHeaderTemplate(templ: string)

  class ResponseWriter {
    var errors: seq<(int, Message)>

    constructor ()
      ensures errors == []
    {
      errors := [];
    }

    /** `http.Error` */
    method Error(status: int, message: Message)
      modifies this
      ensures errors == old(errors) + [(status, message)]
    {
      errors := errors + [(status, message)];
    }
  }

  /** What the rewriter needs once every stage has passed. */
  datatype Details = Details(url: Url, headerKey: string, headerVal: string, configHeaders: seq<string>)

  // ----- when a stage passes

  function ConfOf(h: Header): RequestConf {
    RequestConf(Get(h, FORWARD_TO), Get(h, SECRET_PROVIDER), Get(h, SECRET_HEADER))
  }

  predicate Complete(conf: RequestConf) {
    conf.destinationUrl != "" && conf.secretProvider != "" && conf.headerTemplate != ""
  }

  predicate Reaches(server: Server, conf: RequestConf) {
    && server.parse(conf.destinationUrl).Some?
    && var url := server.parse(conf.destinationUrl).value;
       (url.scheme == "http" || url.scheme == "https") && url.host != ""
  }

  /** One colon, hence one name and one value. */
  predicate OneColon(templ: string) { |Split(templ, ':')| == 2 }

  predicate Provides(server: Server, conf: RequestConf, h: Header) {
    && conf.secretProvider in server.providers
    && server.providers[conf.secretProvider].fetch(h).Fetched?
  }

  predicate Accepted(server: Server, h: Header) {
    var conf := ConfOf(h);
    Complete(conf) && Reaches(server, conf) && Provides(server, conf, h) && OneColon(conf.headerTemplate)
  }

  /** The required headers that are missing, in the order they are looked for. */
  function Missing(h: Header): seq<string> {
    (if Get(h, FORWARD_TO) == "" then [FORWARD_TO] else [])
    + (if Get(h, SECRET_PROVIDER) == "" then [SECRET_PROVIDER] else [])
    + if Get(h, SECRET_HEADER) == "" then [SECRET_HEADER] else []
  }

  /** The message of the first stage that refuses. */
  ghost predicate Refusal(server: Server, h: Header, message: Message) {
    var conf := ConfOf(h);
    match message
    case MissingHeaders(names) =>
      names != [] && names == Missing(h)
    case BadDestination => Complete(conf) && !Reaches(server, conf)
    case UnknownProvider(name) =>
      Complete(conf) && Reaches(server, conf) && name == conf.secretProvider && name !in server.providers
    case ProviderNotConfigured =>
      && Complete(conf) && Reaches(server, conf) && conf.secretProvider in server.providers
      && server.providers[conf.secretProvider].fetch(h).NotConfigured?
    case SecretUnavailable =>
      && Complete(conf) && Reaches(server, conf) && conf.secretProvider in server.providers
      && server.providers[conf.secretProvider].fetch(h).Unavailable?
    case BadHeaderTemplate(templ) =>
      && Complete(conf) && Reaches(server, conf) && Provides(server, conf, h)
      && templ == conf.headerTemplate && !OneColon(templ)
  }

  /** The header a template sets: name and value trimmed, the secret put in the value. */
  ghost predicate HeaderOf(templ: string, secret: Secret, key: string, value: string) {
    exists k, v :: templ == k + ":" + v && ':' !in k && ':' !in v
                   && key == TrimSpace(k) && value == Rendered(TrimSpace(v), secret)
  }

  // ----- the stages

  /** `getHeaderFromTemplate` */
  method HeaderFromTemplate(headerTemplate: string, substituteWith: Secret)
    returns (headerKey: string, headerVal: string, ok: bool)
    ensures ok <==> exists k, v :: headerTemplate == k + ":" + v && ':' !in k && ':' !in v
    ensures ok <==> OneColon(headerTemplate)
    ensures ok ==> HeaderOf(headerTemplate, substituteWith, headerKey, headerVal)
  {
    hide TrimSpace, Rendered;
    var split := Split(headerTemplate, ':');
    SplitInTwo(headerTemplate, ':');
    ok := |split| == 2;
    headerKey, headerVal := "", "";
    if ok {
      headerKey := TrimSpace(split[0]);
      headerVal := Substitute(TrimSpace(split[1]), substituteWith);
      assert headerTemplate == split[0] + ":" + split[1];
    }
  }

  /** `getRequestConfig`: collects every missing header before refusing. */
  method GetRequestConfig(rw: ResponseWriter, server: Server, h: Header) returns (conf: RequestConf, ok: bool)
    modifies rw
    ensures conf == ConfOf(h) && (ok <==> Complete(conf))
    ensures ok ==> rw.errors == old(rw.errors)
    ensures !ok ==> Refused(server, h, old(rw.errors), rw.errors)
  {
    hide Canonical;
    ok := true;
    conf := ConfOf(h);
    var missingHeaders := [];
    if conf.destinationUrl == "" {
      missingHeaders := missingHeaders + [FORWARD_TO];
    }
    if conf.secretProvider == "" {
      missingHeaders := missingHeaders + [SECRET_PROVIDER];
    }
    if conf.headerTemplate == "" {
      missingHeaders := missingHeaders + [SECRET_HEADER];
    }
    if |missingHeaders| != 0 {
      ok := false;
      rw.Error(BAD_REQUEST, MissingHeaders(missingHeaders));
      assert Refusal(server, h, MissingHeaders(missingHeaders));
    }
  }

  /** Exactly one error was written: a 400 with the message of the refusing stage. */
  ghost predicate Refused(server: Server, h: Header, before: seq<(int, Message)>, after: seq<(int, Message)>) {
    exists message :: Refusal(server, h, message) && after == before + [(BAD_REQUEST, message)]
  }

  /** `getRequestRewriteDetails`: passes exactly the accepted requests, and otherwise
      answers with one 400 that names the first stage to refuse. */
  method GetRequestRewriteDetails(rw: ResponseWriter, server: Server, h: Header)
    returns (details: Option<Details>)
    modifies rw
    ensures details.Some? <==> Accepted(server, h)
    ensures details.None? ==> Refused(server, h, old(rw.errors), rw.errors)
    ensures details.Some? ==>
              var conf := ConfOf(h);
              var provider := server.providers[conf.secretProvider];
              && rw.errors == old(rw.errors)
              && details.value.url == server.parse(conf.destinationUrl).value
              && details.value.configHeaders == provider.configHeaders
              && HeaderOf(conf.headerTemplate, provider.fetch(h).secret,
                          details.value.headerKey, details.value.headerVal)
  {
    hide ConfOf, HeaderOf;
    var conf, ok := GetRequestConfig(rw, server, h);
    if !ok {
      return None;
    }
    var parsed := server.parse(conf.destinationUrl);
    if parsed.None? || (parsed.value.scheme != "http" && parsed.value.scheme != "https") || parsed.value.host == "" {
      rw.Error(BAD_REQUEST, BadDestination);
      assert Refusal(server, h, BadDestination);
      return None;
    }
    if conf.secretProvider !in server.providers {
      rw.Error(BAD_REQUEST, UnknownProvider(conf.secretProvider));
      assert Refusal(server, h, UnknownProvider(conf.secretProvider));
      return None;
    }
    var provider := server.providers[conf.secretProvider];
    var fetched := provider.fetch(h);
    if fetched.NotConfigured? {
      rw.Error(BAD_REQUEST, ProviderNotConfigured);
      assert Refusal(server, h, ProviderNotConfigured);
      return None;
    }
    if fetched.Unavailable? {
      rw.Error(BAD_REQUEST, SecretUnavailable);
      assert Refusal(server, h, SecretUnavailable);
      return None;
    }
    var headerKey, headerVal, valid := HeaderFromTemplate(conf.headerTemplate, fetched.secret);
    if !valid {
      rw.Error(BAD_REQUEST, BadHeaderTemplate(conf.headerTemplate));
      assert Refusal(server, h, BadHeaderTemplate(conf.headerTemplate));
      return None;
    }
    return Some(Details(parsed.value, headerKey, headerVal, provider.configHeaders));
  }

  // ----- the rewriting

  class ProxyRequest {
    var header: Header
    var url: Option<Url>

    constructor (header: Header)
      ensures this.header == header && url == None
    {
      this.header := header;
      url := None;
    }
  }

  ghost predicate SameName(a: string, b: string) { Canonical(a) == Canonical(b) }

  ghost predicate OneOf(name: string, names: seq<string>) {
    exists i :: 0 <= i < |names| && SameName(name, names[i])
  }

  /** The proxy's own headers and the provider's. */
  ghost predicate IsControl(name: string, configHeaders: seq<string>) {
    OneOf(name, [FORWARD_TO, SECRET_PROVIDER, SECRET_HEADER]) || OneOf(name, configHeaders)
  }

  /** The named headers are gone and the others are as before. */
  ghost predicate Deleted(before: Header, after: Header, names: seq<string>) {
    forall name :: Values(after, name) == (if OneOf(name, names) then None else Values(before, name))
  }

  /** What an outgoing header is, whatever the case its name is written in. */
  ghost predicate RewrittenTo(before: Header, after: Header, details: Details) {
    forall name :: Values(after, name) ==
      (if SameName(name, details.headerKey) then Some([details.headerVal])
       else if IsControl(name, details.configHeaders) then None
       else Values(before, name))
  }

  lemma DeleteOneMore(before: Header, h: Header, names: seq<string>, i: nat)
    requires i < |names| && Deleted(before, h, names[..i])
    ensures Deleted(before, Del(h, names[i]), names[..i + 1])
  {
    hide Canonical;
    var after := Del(h, names[i]);
    forall name ensures Values(after, name) == (if OneOf(name, names[..i + 1]) then None else Values(before, name)) {
      if OneOf(name, names[..i]) {
        var j :| 0 <= j < i && SameName(name, names[..i][j]);
        assert names[..i + 1][j] == names[j];
      }
      if SameName(name, names[i]) {
        assert names[..i + 1][i] == names[i];
      }
      if OneOf(name, names[..i + 1]) && !SameName(name, names[i]) {
        var j :| 0 <= j < i + 1 && SameName(name, names[..i + 1][j]);
        assert names[..i][j] == names[j];
      }
    }
  }

  /** `DeleteConfigHeaders` of any provider. */
  method DeleteConfigHeaders(req: ProxyRequest, configHeaders: seq<string>)
    modifies req`header
    ensures Deleted(old(req.header), req.header, configHeaders)
  {
    hide Canonical;
    for i := 0 to |configHeaders|
      invariant Deleted(old(req.header), req.header, configHeaders[..i])
    {
      DeleteOneMore(old(req.header), req.header, configHeaders, i);
      req.header := Del(req.header, configHeaders[i]);
    }
    assert configHeaders[..|configHeaders|] == configHeaders;
  }

  lemma DeleteThree(h: Header, a: string, b: string, c: string)
    ensures Deleted(h, Del(Del(Del(h, a), b), c), [a, b, c])
  {
    hide Canonical;
    var names := [a, b, c];
    assert names[..0] == [] && names[..3] == names;
    DeleteOneMore(h, h, names, 0);
    DeleteOneMore(h, Del(h, a), names, 1);
    DeleteOneMore(h, Del(Del(h, a), b), names, 2);
  }

  /** `getRequestRewriter`'s closure. */
  method RewriteRequest(req: ProxyRequest, details: Details)
    modifies req
    ensures req.url == Some(details.url)
    ensures RewrittenTo(old(req.header), req.header, details)
  {
    hide Canonical, OneOf;
    DeleteThree(req.header, FORWARD_TO, SECRET_PROVIDER, SECRET_HEADER);
    req.header := Del(req.header, FORWARD_TO);
    req.header := Del(req.header, SECRET_PROVIDER);
    req.header := Del(req.header, SECRET_HEADER);
    DeleteConfigHeaders(req, details.configHeaders);
    req.url := Some(details.url);
    req.header := Set(req.header, details.headerKey, details.headerVal);
  }

  /** No control header survives unless the template names one; and names that differ
      only in case share this fate. */
  lemma ControlHeadersGone(before: Header, after: Header, details: Details, name: string, other: string)
    requires RewrittenTo(before, after, details)
    requires IsName(name) && IsName(other) && Lower(name) == Lower(other)
    requires IsControl(other, details.configHeaders)
    ensures Values(after, name).Some? <==> SameName(other, details.headerKey)
    ensures Values(after, name) == Values(after, other)
  {
    SameNameIff(name, other);
  }

  // ----- the whole pipeline, said from the request's headers

  /** The requests that are forwarded. */
  ghost predicate Passes(server: Server, h: Header) {
    && Get(h, FORWARD_TO) != "" && Get(h, SECRET_PROVIDER) != "" && Get(h, SECRET_HEADER) != ""
    && server.parse(Get(h, FORWARD_TO)).Some?
    && (var url := server.parse(Get(h, FORWARD_TO)).value; url.scheme in {"http", "https"} && url.host != "")
    && Get(h, SECRET_PROVIDER) in server.providers && server.providers[Get(h, SECRET_PROVIDER)].fetch(h).Fetched?
    && exists k, v :: Get(h, SECRET_HEADER) == k + ":" + v && ':' !in k && ':' !in v
  }

  lemma PassesIff(server: Server, h: Header)
    ensures Passes(server, h) <==> Accepted(server, h)
  {
    hide Get, Split;
    OneColonIff(Get(h, SECRET_HEADER));
  }

  lemma OneColonIff(templ: string)
    ensures OneColon(templ) <==> exists k, v :: templ == k + ":" + v && ':' !in k && ':' !in v
  {
    hide Split;
    SplitInTwo(templ, ':');
  }

  /** Every header that goes out, whatever the case its name is written in. */
  ghost predicate Outgoing(before: Header, after: Header, key: string, value: string, configHeaders: seq<string>) {
    forall name :: Values(after, name) ==
      (if Canonical(name) == Canonical(key) then Some([value])
       else if Canonical(name) == Canonical(FORWARD_TO) || Canonical(name) == Canonical(SECRET_PROVIDER)
               || Canonical(name) == Canonical(SECRET_HEADER)
               || exists i :: 0 <= i < |configHeaders| && Canonical(name) == Canonical(configHeaders[i]) then None
       else Values(before, name))
  }

  lemma IsControlIff(name: string, configHeaders: seq<string>)
    ensures IsControl(name, configHeaders) <==>
              || Canonical(name) == Canonical(FORWARD_TO) || Canonical(name) == Canonical(SECRET_PROVIDER)
              || Canonical(name) == Canonical(SECRET_HEADER)
              || exists i :: 0 <= i < |configHeaders| && Canonical(name) == Canonical(configHeaders[i])
  {
    hide Canonical;
    var own := [FORWARD_TO, SECRET_PROVIDER, SECRET_HEADER];
    assert own[0] == FORWARD_TO && own[1] == SECRET_PROVIDER && own[2] == SECRET_HEADER;
  }

  lemma RewrittenIsOutgoing(before: Header, after: Header, details: Details)
    requires RewrittenTo(before, after, details)
    ensures Outgoing(before, after, details.headerKey, details.headerVal, details.configHeaders)
  {
    hide Canonical, IsControl, Values;
    forall name
      ensures Values(after, name) ==
                (if Canonical(name) == Canonical(details.headerKey) then Some([details.headerVal])
                 else if IsControl(name, details.configHeaders) then None
                 else Values(before, name))
    {
      assert SameName(name, details.headerKey) <==> Canonical(name) == Canonical(details.headerKey);
    }
    forall name { IsControlIff(name, details.configHeaders); }
  }

  /** The header is the text before the colon, its value the text behind it with the
      secret put in, each without outer blanks. */
  lemma HeaderOfMeans(k: string, v: string, secret: Secret, key: string, value: string)
    requires ':' !in k && ':' !in v
    ensures HeaderOf(k + ":" + v, secret, key, value)
            <==> key == TrimSpace(k) && value == Rendered(TrimSpace(v), secret)
  {
    hide TrimSpace, Rendered;
    forall k', v' | k + ":" + v == k' + ":" + v' && ':' !in k' && ':' !in v' ensures k' == k && v' == v {
      CutAtFirst(k, v, k', v', ':');
    }
  }

  /** Which message a refused request gets: that of the first stage that refuses it. */
  lemma RefusedWith(server: Server, h: Header, message: Message)
    requires Refusal(server, h, message)
    ensures
      var forwardTo, name, templ := Get(h, FORWARD_TO), Get(h, SECRET_PROVIDER), Get(h, SECRET_HEADER);
      if forwardTo == "" || name == "" || templ == "" then
        message == MissingHeaders((if forwardTo == "" then [FORWARD_TO] else [])
                                  + (if name == "" then [SECRET_PROVIDER] else [])
                                  + if templ == "" then [SECRET_HEADER] else [])
      else
        match server.parse(forwardTo)
        case None => message == BadDestination
        case Some(url) =>
          if (url.scheme != "http" && url.scheme != "https") || url.host == "" then message == BadDestination
          else if name !in server.providers then message == UnknownProvider(name)
          else
            match server.providers[name].fetch(h)
            case NotConfigured => message == ProviderNotConfigured
            case Unavailable => message == SecretUnavailable
            case Fetched(_) => message == BadHeaderTemplate(templ) && |Split(templ, ':')| != 2
  {
    hide Get, Split;
  }

  /** `ServeHTTP`: the forwarded request, if there is one. */
  method ServeHttp(rw: ResponseWriter, server: Server, h: Header) returns (out: Option<ProxyRequest>)
    modifies rw
    ensures out.Some? <==> Passes(server, h)
    ensures out.None? ==> Refused(server, h, old(rw.errors), rw.errors)
    ensures out.Some? ==> fresh(out.value) && rw.errors == old(rw.errors)
    ensures out.Some? ==> out.value.url == server.parse(Get(h, FORWARD_TO))
    ensures out.Some? ==>
              var provider := server.providers[Get(h, SECRET_PROVIDER)];
              exists key, value ::
                && HeaderOf(Get(h, SECRET_HEADER), provider.fetch(h).secret, key, value)
                && Outgoing(h, out.value.header, key, value, provider.configHeaders)
  {
    PassesIff(server, h);
    hide HeaderOf, RewrittenTo, Outgoing, Accepted, Get;
    var details := GetRequestRewriteDetails(rw, server, h);
    if details.None? {
      return None;
    }
    var request := new ProxyRequest(h);
    RewriteRequest(request, details.value);
    RewrittenIsOutgoing(h, request.header, details.value);
    return Some(request);
  }
}
