/** The fields StockDash.py reads from each news article, with the defaults it uses
    for missing ones. */
module News {
  import opened Wrappers
  import opened Json

  const DEFAULT_TITLE: Json := Str("No title")
  const DEFAULT_LINK: Json := Str("#")
  const DEFAULT_PROVIDER: Json := Str("Unknown Source")

  /** What the article list shows of one article; `logo` is null when there is none. */
  datatype Headline = Headline(title: Json, link: Json, provider: Json, logo: Json)

  datatype NewsError =
    /** `article['content']` raises KeyError. */
    | MissingContent
    /** `.get` is called on a value that is not a dictionary (present but null, say). */
    | NotADictionary(value: Json)

  /** `parent.get(key, {})` followed by another `.get`: the nested dictionary, or an
      error when the stored value is not one. */
  function Nested(parent: map<string, Json>, key: string): (r: Result<map<string, Json>, NewsError>)
    ensures key !in parent ==> r == Ok(map[])
    ensures key in parent && parent[key].Obj? ==> r == Ok(parent[key].fields)
    ensures key in parent && !parent[key].Obj? ==> r == Err(NotADictionary(parent[key]))
  {
    match Get(parent, key, EMPTY_OBJECT)
    case Obj(fields) => Ok(fields)
    case other => Err(NotADictionary(other))
  }

  /** Lines 350-354 for one `article`. */
  function HeadlineOf(article: map<string, Json>): (r: Result<Headline, NewsError>)
    ensures "content" !in article ==> r == Err(MissingContent)
    ensures "content" in article && !article["content"].Obj? ==> r.Err?
    ensures r.Ok? ==>
              && "content" in article && article["content"].Obj?
              && var content := article["content"].fields;
              && r.value.title == Get(content, "title", DEFAULT_TITLE)
              && Nested(content, "canonicalUrl").Ok?
              && r.value.link == Get(Nested(content, "canonicalUrl").value, "url", DEFAULT_LINK)
              && Nested(content, "provider").Ok?
              && r.value.provider == Get(Nested(content, "provider").value, "displayName", DEFAULT_PROVIDER)
              && Nested(Nested(content, "provider").value, "logo").Ok?
              && r.value.logo == Get(Nested(Nested(content, "provider").value, "logo").value, "url", Null)
    ensures "content" in article && article["content"].Obj? ==>
              var content := article["content"].fields;
              (r.Ok? <==> && Nested(content, "canonicalUrl").Ok?
                          && Nested(content, "provider").Ok?
                          && Nested(Nested(content, "provider").value, "logo").Ok?)
  {
    if "content" !in article then Err(MissingContent)
    else if !article["content"].Obj? then Err(NotADictionary(article["content"]))
    else
      var content := article["content"].fields;
      var title := Get(content, "title", DEFAULT_TITLE);
      match Nested(content, "canonicalUrl")
      case Err(e) => Err(e)
      case Ok(canonical) =>
        var link := Get(canonical, "url", DEFAULT_LINK);
        match Nested(content, "provider")
        case Err(e) => Err(e)
        case Ok(provider) =>
          var name := Get(provider, "displayName", DEFAULT_PROVIDER);
          match Nested(provider, "logo")
          case Err(e) => Err(e)
          case Ok(logo) => Ok(Headline(title, link, name, Get(logo, "url", Null)))
  }

  /** An article whose content lacks every optional field is shown with the defaults:
      "No title", a link to "#", "Unknown Source" and no logo. A title stored as null
      is kept as null rather than replaced. */
  lemma DefaultsForMissingFields(content: map<string, Json>)
    requires "title" !in content && "canonicalUrl" !in content && "provider" !in content
    ensures HeadlineOf(map["content" := Obj(content)]) == Ok(Headline(DEFAULT_TITLE, DEFAULT_LINK, DEFAULT_PROVIDER, Null))
    ensures HeadlineOf(map["content" := Obj(content["title" := Null])]).Ok?
    ensures HeadlineOf(map["content" := Obj(content["title" := Null])]).value.title == Null
  {
  }
}
