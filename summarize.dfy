/** The summarize-policy edge function: its rate limit (10 per minute per
    address), the check chain on the submitted title and policy text, and
    the order in which the handler answers. The AI gateway is an outcome
    passed in. */
module Summarize {
  import opened Text
  import opened Http
  import opened RateLimit

  const SummarizePolicy := Policy(10, 60000)

  /** With the summary constants: a new or expired window admits with a
      reset in 60 s and stores a one-minute window; a window holding 10
      requests denies. */
  lemma SummarizeWindow(m: Table, ip: string, now: int)
    ensures var r := Decide(SummarizePolicy, m, ip, now);
      (ip !in m || m[ip].resetTime < now) ==>
        r.0.allowed && r.0.resetInSeconds == 60 && r.1[ip] == Record(1, now + 60000)
    ensures ip in m && now <= m[ip].resetTime && m[ip].count >= 10 ==>
              !Decide(SummarizePolicy, m, ip, now).0.allowed
  {
  }

  const MaxTitleLength := 200
  const MaxPolicyTextLength := 10000

  /** The refusals of the check chain; Message() is the text the 400 reply
      carries. */
  datatype InputError = ErrRequired | ErrTypes | ErrTitleLength | ErrTextLength | ErrContent
  {
    function Message(): string {
      match this
      case ErrRequired => "Policy text and title are required"
      case ErrTypes => "Invalid input types"
      case ErrTitleLength => "Title must be less than 200 characters"
      case ErrTextLength => "Policy text must be less than 10000 characters"
      case ErrContent => "Invalid input content"
    }
  }

  /** What the check chain makes of a parsed body. `Unreadable` is a body the
      destructuring `const { policyText, title } = …` throws on (JSON null). */
  datatype Checked =
    | Accepted(cleanTitle: string, cleanText: string)
    | Rejected(error: InputError)
    | Unreadable

  /** The check chain: presence, then type, then raw length, then content
      after sanitising; the first failing check answers. */
  function CheckInput(body: Json): (r: Checked)
    ensures r.Unreadable? <==> body == JNull
    ensures r.Accepted? ==>
              && Get(body, "title").Some? && Get(body, "title").value.JStr?
              && Get(body, "policyText").Some? && Get(body, "policyText").value.JStr?
              && r.cleanTitle == Sanitize(Get(body, "title").value.s)
              && r.cleanText == Sanitize(Get(body, "policyText").value.s)
    ensures r.Accepted? ==>
              IsClean(r.cleanTitle) && 1 <= |r.cleanTitle| <= MaxTitleLength
              && IsClean(r.cleanText) && 1 <= |r.cleanText| <= MaxPolicyTextLength
  {
    if body == JNull then Unreadable
    else CheckFields(Get(body, "title"), Get(body, "policyText"))
  }

  /** The chain on the two members of a body that is not null. */
  function CheckFields(title: Option<Json>, text: Option<Json>): (r: Checked)
    ensures !r.Unreadable?
    ensures r.Accepted? ==>
              && title.Some? && title.value.JStr? && text.Some? && text.value.JStr?
              && r == CheckStrings(title.value.s, text.value.s)
  {
    if !Truthy(text) || !Truthy(title) then Rejected(ErrRequired)
    else if !text.value.JStr? || !title.value.JStr? then Rejected(ErrTypes)
    else CheckStrings(title.value.s, text.value.s)
  }

  /** The rest of the chain, once both fields are strings: the raw lengths,
      then the content after sanitising. */
  function CheckStrings(title: string, text: string): (r: Checked)
    ensures !r.Unreadable?
    ensures r.Accepted? ==> r.cleanTitle == Sanitize(title) && r.cleanText == Sanitize(text)
    ensures r.Accepted? ==>
              IsClean(r.cleanTitle) && 1 <= |r.cleanTitle| <= MaxTitleLength
              && IsClean(r.cleanText) && 1 <= |r.cleanText| <= MaxPolicyTextLength
    ensures r.Rejected? ==> r.error != ErrRequired && r.error != ErrTypes
  {
    if |title| > MaxTitleLength then Rejected(ErrTitleLength)
    else if |text| > MaxPolicyTextLength then Rejected(ErrTextLength)
    else
      var cleanTitle, cleanText := Sanitize(title), Sanitize(text);
      if cleanTitle == "" || cleanText == "" then Rejected(ErrContent)
      else Accepted(cleanTitle, cleanText)
  }

  /** The body with the two fields set to the given strings. */
  function Body(title: string, text: string): Json {
    JObj(map["title" := JStr(title), "policyText" := JStr(text)])
  }

  /** The precedence of the checks, each in both directions: a missing or
      falsy field is reported first, whatever else is wrong. */
  lemma RequiredFirst(body: Json)
    requires body != JNull
    ensures CheckInput(body) == Rejected(ErrRequired) <==>
              !Truthy(Get(body, "policyText")) || !Truthy(Get(body, "title"))
  {
  }

  /** Two present values of which one is not a string. */
  lemma TypesSecond(body: Json)
    requires body != JNull
    requires Truthy(Get(body, "policyText")) && Truthy(Get(body, "title"))
    ensures CheckInput(body) == Rejected(ErrTypes) <==>
              !Get(body, "policyText").value.JStr? || !Get(body, "title").value.JStr?
  {
  }

  /** A body whose two members are non-empty strings. */
  predicate HasStrings(body: Json, title: string, text: string) {
    && Get(body, "title") == Some(JStr(title))
    && Get(body, "policyText") == Some(JStr(text))
    && title != "" && text != ""
  }

  /** Two non-empty strings pass presence and type, and go on to the rest of
      the chain, whatever else the body holds. */
  lemma StringBody(body: Json, title: string, text: string)
    requires HasStrings(body, title, text)
    ensures CheckInput(body) == CheckStrings(title, text)
  {
    var t, p := Get(body, "title"), Get(body, "policyText");
    assert body != JNull;
    assert Truthy(t) && Truthy(p);
    assert CheckFields(t, p) == CheckStrings(title, text);
  }

  lemma BodyMembers(title: string, text: string)
    ensures title != "" && text != "" ==> HasStrings(Body(title, text), title, text)
  {
    var m := map["title" := JStr(title), "policyText" := JStr(text)];
    assert "title" in m && m["title"] == JStr(title);
    assert "policyText" in m && m["policyText"] == JStr(text);
  }

  /** For two non-empty strings the raw title length is checked before the
      raw text length, and both before sanitising; exactly the limit passes. */
  lemma TitleLengthThird(body: Json, title: string, text: string)
    requires HasStrings(body, title, text)
    ensures CheckInput(body) == Rejected(ErrTitleLength) <==> |title| > MaxTitleLength
  {
    StringBody(body, title, text);
  }

  lemma TextLengthFourth(body: Json, title: string, text: string)
    requires HasStrings(body, title, text)
    ensures CheckInput(body) == Rejected(ErrTextLength) <==>
              |title| <= MaxTitleLength && |text| > MaxPolicyTextLength
  {
    StringBody(body, title, text);
  }

  /** Within the limits, the body is accepted exactly when both fields
      survive sanitising, and then with the sanitised strings. */
  lemma ContentLast(body: Json, title: string, text: string)
    requires HasStrings(body, title, text)
    requires |title| <= MaxTitleLength && |text| <= MaxPolicyTextLength
    ensures CheckInput(body) ==
              if Sanitize(title) == "" || Sanitize(text) == "" then Rejected(ErrContent)
              else Accepted(Sanitize(title), Sanitize(text))
  {
    StringBody(body, title, text);
  }

  /** A title of nothing but control characters and white space is rejected
      as content, not as missing. */
  lemma BlankTitleRejected(body: Json, title: string, text: string)
    requires HasStrings(body, title, text)
    requires |title| <= MaxTitleLength && |text| <= MaxPolicyTextLength
    requires forall i :: 0 <= i < |title| ==> IsControl(title[i]) || IsSpace(title[i])
    ensures CheckInput(body) == Rejected(ErrContent)
  {
    SanitizeBlank(title);
    ContentLast(body, title, text);
  }

  /** The length limit applies to the raw title: 201 spaces before "x" are
      refused although the sanitised title would be "x". */
  lemma RawLengthCounts()
    ensures var title := seq(201, _ => ' ') + "x";
      Sanitize(title) == "x" && CheckInput(Body(title, "policy")) == Rejected(ErrTitleLength)
  {
    var title := seq(201, _ => ' ') + "x";
    assert StripControls("x") == "x";
    StripControlsOfClean(title);
    assert TrimStart(title) == "x" by {
      TrimStartSpaces(seq(201, _ => ' '), "x");
    }
    BodyMembers(title, "policy");
    TitleLengthThird(Body(title, "policy"), title, "policy");
  }

  /** Leading spaces are dropped one by one. */
  lemma {:induction false} TrimStartSpaces(spaces: string, rest: string)
    requires forall i :: 0 <= i < |spaces| ==> spaces[i] == ' '
    requires rest == [] || !IsSpace(rest[0])
    ensures TrimStart(spaces + rest) == rest
  {
    if spaces != [] {
      assert (spaces + rest)[1..] == spaces[1..] + rest;
      TrimStartSpaces(spaces[1..], rest);
    }
  }

  /** What is accepted, sent again, is accepted unchanged. */
  lemma AcceptedIsFixedPoint(body: Json)
    requires CheckInput(body).Accepted?
    ensures var r := CheckInput(body);
      CheckInput(Body(r.cleanTitle, r.cleanText)) == r
  {
    var r := CheckInput(body);
    SanitizeOfClean(r.cleanTitle);
    SanitizeOfClean(r.cleanText);
    BodyMembers(r.cleanTitle, r.cleanText);
    ContentLast(Body(r.cleanTitle, r.cleanText), r.cleanTitle, r.cleanText);
  }

  /** What the AI gateway did: a non-ok status, a reply body that is not JSON,
      or a reply whose `choices[0].message.content` is given (None when any
      step of that path is missing). */
  datatype AiOutcome =
    | AiHttpError(status: int)
    | AiMalformed
    | AiAnswered(content: Option<Json>)

  /** The handler's possible answers. */
  datatype SummaryReply =
    | Preflight
    | TooManyRequests(retryAfterSeconds: int)
    | BadRequest(message: string)
    | GatewayBusy
    | GatewayUnpaid
    | Failed
    | Summary(summary: Json)
  {
    function Status(): nat {
      match this
      case Preflight => 200
      case TooManyRequests(_) => 429
      case BadRequest(_) => 400
      case GatewayBusy => 429
      case GatewayUnpaid => 402
      case Failed => 500
      case Summary(_) => 200
    }
  }

  /** One request. `body` is what req.json() gave (None when it threw),
      `apiKeySet` whether LOVABLE_API_KEY is set, `ai` what the gateway would
      answer. Any method other than OPTIONS is handled like POST. */
  method HandleSummarize(limiter: Limiter, httpMethod: string, headers: Headers, now: int,
                         body: Option<Json>, apiKeySet: bool, ai: AiOutcome)
    returns (reply: SummaryReply)
    requires limiter.Valid() && limiter.policy == SummarizePolicy
    modifies limiter
    ensures limiter.Valid()
    ensures httpMethod == "OPTIONS" <==> reply == Preflight
    ensures httpMethod == "OPTIONS" ==> unchanged(limiter)
    ensures httpMethod != "OPTIONS" ==>
              limiter.records == Decide(SummarizePolicy, old(limiter.records), ClientIp(headers), now).1
    ensures reply.TooManyRequests? <==>
              httpMethod != "OPTIONS"
              && !Decide(SummarizePolicy, old(limiter.records), ClientIp(headers), now).0.allowed
    ensures reply.TooManyRequests? ==>
              reply.retryAfterSeconds
              == Decide(SummarizePolicy, old(limiter.records), ClientIp(headers), now).0.resetInSeconds
    ensures reply.BadRequest? <==>
              httpMethod != "OPTIONS"
              && Decide(SummarizePolicy, old(limiter.records), ClientIp(headers), now).0.allowed
              && body.Some? && CheckInput(body.value).Rejected?
    ensures reply.BadRequest? ==> reply.message == CheckInput(body.value).error.Message()
    ensures reply.GatewayBusy? || reply.GatewayUnpaid? || reply.Summary? ==>
              httpMethod != "OPTIONS" && body.Some? && CheckInput(body.value).Accepted? && apiKeySet
    ensures reply.GatewayBusy? ==> ai == AiHttpError(429)
    ensures reply.GatewayUnpaid? ==> ai == AiHttpError(402)
    ensures reply.Summary? ==> ai == AiAnswered(Some(reply.summary)) && Truthy(ai.content)
    ensures reply.Failed? <==>
              httpMethod != "OPTIONS"
              && Decide(SummarizePolicy, old(limiter.records), ClientIp(headers), now).0.allowed
              && (body.None? || CheckInput(body.value).Unreadable?
                  || (CheckInput(body.value).Accepted?
                      && (!apiKeySet || ai.AiMalformed?
                          || (ai.AiHttpError? && ai.status != 429 && ai.status != 402)
                          || (ai.AiAnswered? && !Truthy(ai.content)))))
  {
    if httpMethod == "OPTIONS" {
      return Preflight;
    }
    var clientIp := ClientIp(headers);
    var rateLimit := limiter.Check(clientIp, now);
    if !rateLimit.allowed {
      return TooManyRequests(rateLimit.resetInSeconds);
    }
    if body.None? {
      return Failed;
    }
    var checked := CheckInput(body.value);
    match checked {
      case Unreadable =>
        return Failed;
      case Rejected(error) =>
        return BadRequest(error.Message());
      case Accepted(_, _) =>
    }
    if !apiKeySet {
      return Failed;
    }
    match ai {
      case AiHttpError(status) =>
        if status == 429 {
          return GatewayBusy;
        }
        if status == 402 {
          return GatewayUnpaid;
        }
        return Failed;
      case AiMalformed =>
        return Failed;
      case AiAnswered(content) =>
        if !Truthy(content) {
          return Failed;
        }
        return Summary(content.value);
    }
  }
}
