/** The fetch-news edge function: the NewsAPI search query, the filter and
    normaliser applied to the returned articles, and what the handler answers
    for each outcome of the two foreign calls (NewsAPI and the upsert), which
    are passed in. */
module News {
  import opened Text

  const NewsKeywords: seq<string> :=
    ["layoffs", "job cuts", "mass layoffs", "workforce reduction", "furloughs", "redundancy"]

  const ExcludeKeywords: seq<string> := ["hiring", "new jobs", "reskilling", "training program"]

  const MaxTitleLength := 500
  const MaxDescriptionLength := 1000
  const RemovedMarker := "[Removed]"

  /** Array.prototype.join. */
  function Join(parts: seq<string>, sep: string): string {
    if parts == [] then ""
    else if |parts| == 1 then parts[0]
    else Join(parts[..|parts| - 1], sep) + sep + parts[|parts| - 1]
  }

  /** The length of a join: the parts plus one separator between each two. */
  lemma {:induction false} JoinLength(parts: seq<string>, sep: string)
    requires parts != []
    ensures |Join(parts, sep)| == SumLengths(parts) + (|parts| - 1) * |sep|
  {
    if |parts| > 1 {
      var init := parts[..|parts| - 1];
      JoinLength(init, sep);
      assert SumLengths(parts) == SumLengths(init) + |parts[|parts| - 1]|;
    }
  }

  /** Joining two non-empty lists puts one separator between their joins. */
  lemma {:induction false} JoinAppend(xs: seq<string>, ys: seq<string>, sep: string)
    requires xs != [] && ys != []
    ensures Join(xs + ys, sep) == Join(xs, sep) + sep + Join(ys, sep)
  {
    var zs := xs + ys;
    var last := ys[|ys| - 1];
    if |ys| == 1 {
      assert zs[..|zs| - 1] == xs;
    } else {
      var init := ys[..|ys| - 1];
      assert zs[..|zs| - 1] == xs + init;
      JoinAppend(xs, init, sep);
      assert Join(xs, sep) + sep + Join(init, sep) + sep + last
          == Join(xs, sep) + sep + (Join(init, sep) + sep + last);
    }
  }

  function SumLengths(parts: seq<string>): nat {
    if parts == [] then 0 else SumLengths(parts[..|parts| - 1]) + |parts[|parts| - 1]|
  }

  /** NEWS_KEYWORDS.slice(0, 3).join(' OR '): the first three keywords,
      joined with " OR ". */
  function SearchQuery(): (q: string)
    ensures q == "layoffs OR job cuts OR mass layoffs"
  {
    var k := NewsKeywords[..3];
    assert k == ["layoffs", "job cuts", "mass layoffs"];
    assert k[..2] == ["layoffs", "job cuts"];
    assert k[..2][..1] == ["layoffs"];
    assert Join(k[..2], " OR ") == "layoffs OR job cuts";
    Join(k, " OR ")
  }

  /** An article as NewsAPI returns it; None is a missing or null field.
      Fields of another JSON type are not modelled. */
  datatype RawArticle = RawArticle(
    title: Option<string>,
    description: Option<string>,
    url: Option<string>,
    sourceName: Option<string>,
    publishedAt: Option<string>)

  /** A row of job_transition_news as the function upserts it. */
  datatype NewsRow = NewsRow(
    title: string,
    description: Option<string>,
    source: string,
    url: string,
    publishedAt: string)

  /** A field is truthy: present and not the empty string. */
  predicate Present(v: Option<string>) {
    v.Some? && v.value != ""
  }

  /** `article.description || ''` */
  function DescriptionText(a: RawArticle): string {
    if a.description.Some? then a.description.value else ""
  }

  /** EXCLUDE_KEYWORDS.some(...) on the lower-cased title and description. */
  predicate MentionsExcluded(title: string, description: string) {
    exists i :: 0 <= i < |ExcludeKeywords|
      && (Contains(ToLower(title), ToLower(ExcludeKeywords[i]))
          || Contains(ToLower(description), ToLower(ExcludeKeywords[i])))
  }

  /** The filter callback. */
  predicate Keep(a: RawArticle) {
    && Present(a.title) && Present(a.url) && Present(a.sourceName) && Present(a.publishedAt)
    && !Contains(a.title.value, RemovedMarker)
    && !MentionsExcluded(a.title.value, DescriptionText(a))
  }

  /** String.prototype.slice(0, n). */
  function Prefix(s: string, n: nat): (r: string)
    ensures r <= s
    ensures |r| == if |s| < n then |s| else n
  {
    if |s| < n then s else s[..n]
  }

  /** The map callback: title cut to 500 characters, description to 1000 or
      null when missing or empty, the other fields copied. */
  function Normalize(a: RawArticle): (row: NewsRow)
    requires Keep(a)
    ensures row.title <= a.title.value
    ensures |row.title| == if |a.title.value| < MaxTitleLength then |a.title.value| else MaxTitleLength
    ensures row.description.Some? <==> Present(a.description)
    ensures row.description.Some? ==>
              row.description.value <= a.description.value
              && |row.description.value|
                 == if |a.description.value| < MaxDescriptionLength then |a.description.value|
                    else MaxDescriptionLength
    ensures row.source == a.sourceName.value && row.url == a.url.value
            && row.publishedAt == a.publishedAt.value
  {
    NewsRow(
      Prefix(a.title.value, MaxTitleLength),
      if Present(a.description) then Some(Prefix(a.description.value, MaxDescriptionLength)) else None,
      a.sourceName.value,
      a.url.value,
      a.publishedAt.value)
  }

  /** `(newsData.articles || []).filter(...).map(...)` */
  function Prepare(articles: seq<RawArticle>): (rows: seq<NewsRow>)
    ensures |rows| <= |articles|
  {
    if articles == [] then []
    else
      var rest := Prepare(articles[1..]);
      if Keep(articles[0]) then [Normalize(articles[0])] + rest else rest
  }

  /** The pipeline works article by article, so it keeps the input order:
      preparing a concatenation prepares each part. */
  lemma {:induction false} PrepareAppend(xs: seq<RawArticle>, ys: seq<RawArticle>)
    ensures Prepare(xs + ys) == Prepare(xs) + Prepare(ys)
  {
    if xs == [] {
      assert xs + ys == ys;
    } else {
      assert (xs + ys)[0] == xs[0];
      assert (xs + ys)[1..] == xs[1..] + ys;
      PrepareAppend(xs[1..], ys);
      if Keep(xs[0]) {
        assert [Normalize(xs[0])] + (Prepare(xs[1..]) + Prepare(ys))
            == ([Normalize(xs[0])] + Prepare(xs[1..])) + Prepare(ys);
      }
    }
  }

  /** A row is in the output exactly when it is the normal form of a kept
      input article. */
  lemma {:induction false} PrepareMembership(articles: seq<RawArticle>, row: NewsRow)
    ensures row in Prepare(articles) <==>
              exists i :: 0 <= i < |articles| && Keep(articles[i]) && Normalize(articles[i]) == row
  {
    if articles != [] {
      PrepareMembership(articles[1..], row);
      if row in Prepare(articles) && !(row in Prepare(articles[1..])) {
        assert Keep(articles[0]) && Normalize(articles[0]) == row;
      }
      if exists i :: 0 <= i < |articles| && Keep(articles[i]) && Normalize(articles[i]) == row {
        var i :| 0 <= i < |articles| && Keep(articles[i]) && Normalize(articles[i]) == row;
        if i > 0 {
          assert articles[1..][i - 1] == articles[i];
        }
      }
    }
  }

  /** Nothing a prefix contains is missing from the whole string. */
  lemma NotInPrefix(s: string, n: nat, part: string)
    requires !Contains(s, part)
    ensures !Contains(Prefix(s, n), part)
  {
    if |s| >= n && Contains(s[..n], part) {
      ContainsInPrefix(s, n, part);
    }
  }

  /** The same, after lower-casing both. */
  lemma NotInLowerPrefix(s: string, n: nat, part: string)
    requires !Contains(ToLower(s), part)
    ensures !Contains(ToLower(Prefix(s, n)), part)
  {
    if |s| >= n {
      ToLowerPrefix(s, n);
      NotInPrefix(ToLower(s), n, part);
    }
  }

  /** What every stored row satisfies: a title of 1 to 500 characters without
      the "[Removed]" marker, a description (if any) of 1 to 1000 characters,
      and no excluded keyword in either, ignoring case. */
  ghost predicate CleanRow(row: NewsRow) {
    && 1 <= |row.title| <= MaxTitleLength
    && !Contains(row.title, RemovedMarker)
    && (row.description.Some? ==> 1 <= |row.description.value| <= MaxDescriptionLength)
    && row.source != "" && row.url != "" && row.publishedAt != ""
    && forall i :: 0 <= i < |ExcludeKeywords| ==>
         !Contains(ToLower(row.title), ToLower(ExcludeKeywords[i]))
         && (row.description.Some? ==> !Contains(ToLower(row.description.value), ToLower(ExcludeKeywords[i])))
  }

  lemma NormalizeClean(a: RawArticle)
    requires Keep(a)
    ensures CleanRow(Normalize(a))
  {
    var row := Normalize(a);
    NotInPrefix(a.title.value, MaxTitleLength, RemovedMarker);
    forall i | 0 <= i < |ExcludeKeywords|
      ensures !Contains(ToLower(row.title), ToLower(ExcludeKeywords[i]))
      ensures row.description.Some? ==> !Contains(ToLower(row.description.value), ToLower(ExcludeKeywords[i]))
    {
      NotInLowerPrefix(a.title.value, MaxTitleLength, ToLower(ExcludeKeywords[i]));
      if row.description.Some? {
        NotInLowerPrefix(a.description.value, MaxDescriptionLength, ToLower(ExcludeKeywords[i]));
      }
    }
  }

  /** Every prepared row is clean. */
  lemma {:induction false} PrepareClean(articles: seq<RawArticle>)
    ensures forall row :: row in Prepare(articles) ==> CleanRow(row)
  {
    if articles != [] {
      PrepareClean(articles[1..]);
      if Keep(articles[0]) {
        NormalizeClean(articles[0]);
      }
    }
  }

  /** An article is dropped exactly when a field is missing, the title is
      marked removed, or an excluded keyword appears in the title or in the
      description, ignoring case. */
  lemma DroppedIff(a: RawArticle)
    ensures Prepare([a]) == [] <==>
              !Present(a.title) || !Present(a.url) || !Present(a.sourceName) || !Present(a.publishedAt)
              || Contains(a.title.value, RemovedMarker)
              || (exists i :: 0 <= i < |ExcludeKeywords|
                   && (Contains(ToLower(a.title.value), ToLower(ExcludeKeywords[i]))
                       || Contains(ToLower(DescriptionText(a)), ToLower(ExcludeKeywords[i]))))
  {
    assert [a][1..] == [];
  }

  /** What NewsAPI answered: a non-ok HTTP status, a body whose status is not
      "ok" (with its message, if truthy), or an ok body with its articles (None
      when the field is missing). */
  datatype NewsApiOutcome =
    | NewsHttpError(status: nat)
    | NewsApiError(message: Option<string>)
    | NewsOk(articles: Option<seq<RawArticle>>)

  /** What the upsert answered: an error message, or the rows it returned
      (None when `data` is null). */
  datatype UpsertOutcome = UpsertFailed(message: string) | UpsertOk(returned: Option<nat>)

  datatype FetchReply =
    | Preflight
    | Failed(error: string)
    | NoNewArticles
    | Completed(count: nat, totalFetched: nat)
  {
    function Status(): nat {
      if Failed? then 500 else 200
    }

    /** The `count` field of the JSON reply, where it has one. */
    function Count(): Option<nat> {
      match this
      case NoNewArticles => Some(0)
      case Completed(count, _) => Some(count)
      case _ => None
    }
  }

  const ErrNewsKey := "NEWS_API_KEY is not configured"
  const ErrSupabase := "Supabase credentials not configured"

  /** The handler: the reply, and the rows handed to the upsert (None when
      the database is not written). `newsKeySet` and `supabaseSet` say which
      environment variables are set. */
  function FetchNews(httpMethod: string, newsKeySet: bool, supabaseSet: bool,
                     news: NewsApiOutcome, upsert: UpsertOutcome): (r: (FetchReply, Option<seq<NewsRow>>))
    ensures httpMethod == "OPTIONS" <==> r.0 == Preflight
    ensures httpMethod != "OPTIONS" && !newsKeySet ==> r.0 == Failed(ErrNewsKey)
    ensures httpMethod != "OPTIONS" && newsKeySet && !supabaseSet ==> r.0 == Failed(ErrSupabase)
    ensures r.1.Some? <==>
              httpMethod != "OPTIONS" && newsKeySet && supabaseSet && news.NewsOk?
              && Prepare(ArticlesOf(news)) != []
    ensures r.1.Some? ==> r.1.value == Prepare(ArticlesOf(news))
    ensures r.0 == NoNewArticles <==>
              httpMethod != "OPTIONS" && newsKeySet && supabaseSet && news.NewsOk?
              && Prepare(ArticlesOf(news)) == []
    ensures r.0.Completed? <==> r.1.Some? && upsert.UpsertOk?
    ensures httpMethod != "OPTIONS" && newsKeySet && supabaseSet && news.NewsHttpError? ==>
              r.0 == Failed("NewsAPI error: " + NatToDecimal(news.status))
    ensures httpMethod != "OPTIONS" && newsKeySet && supabaseSet && news.NewsApiError? ==>
              r.0 == Failed("NewsAPI error: "
                            + if Present(news.message) then news.message.value else "Unknown error")
    ensures r.1.Some? && upsert.UpsertFailed? ==> r.0 == Failed("Database error: " + upsert.message)
    ensures r.0.Completed? ==>
              r.0.totalFetched == |r.1.value|
              && r.0.count == (if upsert.returned.Some? then upsert.returned.value else 0)
  {
    if httpMethod == "OPTIONS" then (Preflight, None)
    else if !newsKeySet then (Failed(ErrNewsKey), None)
    else if !supabaseSet then (Failed(ErrSupabase), None)
    else
      match news
      case NewsHttpError(status) => (Failed("NewsAPI error: " + NatToDecimal(status)), None)
      case NewsApiError(message) =>
        (Failed("NewsAPI error: " + if Present(message) then message.value else "Unknown error"), None)
      case NewsOk(_) =>
        var rows := Prepare(ArticlesOf(news));
        if rows == [] then (NoNewArticles, None)
        else
          match upsert
          case UpsertFailed(message) => (Failed("Database error: " + message), Some(rows))
          case UpsertOk(returned) =>
            (Completed(if returned.Some? then returned.value else 0, |rows|), Some(rows))
  }

  /** `newsData.articles || []` */
  function ArticlesOf(news: NewsApiOutcome): seq<RawArticle>
    requires news.NewsOk?
  {
    if news.articles.Some? then news.articles.value else []
  }

  /** An empty result answers count 0 and writes nothing. */
  lemma EmptyResultWritesNothing(httpMethod: string, news: NewsApiOutcome, upsert: UpsertOutcome)
    requires httpMethod != "OPTIONS" && news.NewsOk? && Prepare(ArticlesOf(news)) == []
    ensures var r := FetchNews(httpMethod, true, true, news, upsert);
      r.0.Count() == Some(0) && r.1.None?
  {
  }

  /** Whatever is written is clean, and no longer than what NewsAPI sent. */
  lemma WrittenRowsClean(httpMethod: string, newsKeySet: bool, supabaseSet: bool,
                         news: NewsApiOutcome, upsert: UpsertOutcome)
    requires FetchNews(httpMethod, newsKeySet, supabaseSet, news, upsert).1.Some?
    ensures var rows := FetchNews(httpMethod, newsKeySet, supabaseSet, news, upsert).1.value;
      && (forall row :: row in rows ==> CleanRow(row))
      && 1 <= |rows| <= |ArticlesOf(news)|
  {
    PrepareClean(ArticlesOf(news));
  }

  /** The NewsAPI status is reported in the error, in decimal. */
  lemma HttpErrorReported(httpMethod: string, status: nat, upsert: UpsertOutcome)
    requires httpMethod != "OPTIONS"
    ensures var r := FetchNews(httpMethod, true, true, NewsHttpError(status), upsert).0;
      r.Failed? && r.error == "NewsAPI error: " + NatToDecimal(status)
      && DecimalValue(r.error[|"NewsAPI error: "|..]) == status
  {
    var r := FetchNews(httpMethod, true, true, NewsHttpError(status), upsert).0;
    assert r.error[|"NewsAPI error: "|..] == NatToDecimal(status);
    DecimalRoundTrip(status);
  }
}
