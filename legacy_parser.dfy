/** The older upload code of `inventory/business_logic.py`: an article parser
    that walks the whole list and collects one message per failing element,
    and `save_article_uploads`, which upserts the parsed articles. */
module LegacyBusinessLogic {
  import opened JsonValue
  import opened Records
  import opened UploadParsers
  import opened Store

  /** `models.Article` as the legacy parser builds it: the name is whatever
      value the upload holds, neither type-checked nor stripped. */
  datatype Article = Article(id: int, name: Json, stock: int)

  /** `_parse_article` under context `ctx`: `art_id`, `name`, `stock`, in that
      order. The field helpers raise the same messages as the newer
      `UploadParser` ones. */
  function ParseArticleUnder(article: Json, ctx: string): (r: Outcome<Article>)
    ensures r.Ok? <==> ParseNumericField(article, "art_id", ctx).Ok?
                       && ParseField(article, "name", ctx).Ok?
                       && ParseNumericField(article, "stock", ctx).Ok?
    ensures r.Ok? ==> ToInt(article.fields["art_id"]) == Converted(r.value.id)
                      && r.value.name == article.fields["name"]
                      && ToInt(article.fields["stock"]) == Converted(r.value.stock)
    ensures !ParseNumericField(article, "art_id", ctx).Ok? ==>
              r == ParseNumericField(article, "art_id", ctx).PropagateFailure()
    ensures ParseNumericField(article, "art_id", ctx).Ok? && !ParseField(article, "name", ctx).Ok? ==>
              r == ParseField(article, "name", ctx).PropagateFailure()
    ensures ParseNumericField(article, "art_id", ctx).Ok? && ParseField(article, "name", ctx).Ok?
            && !ParseNumericField(article, "stock", ctx).Ok? ==>
              r == ParseNumericField(article, "stock", ctx).PropagateFailure()
    ensures r.Err? ==> |r.errors| == 1
  {
    var id := ParseNumericField(article, "art_id", ctx);
    var name := ParseField(article, "name", ctx);
    var stock := ParseNumericField(article, "stock", ctx);
    if !id.Ok? then id.PropagateFailure()
    else if !name.Ok? then name.PropagateFailure()
    else if !stock.Ok? then stock.PropagateFailure()
    else Ok(Article(id.value, name.value, stock.value))
  }

  /** `_parse_article(article, index)`: element `index` is reported under
      context `inventory[index]`. */
  function ParseArticle(article: Json, index: nat): (r: Outcome<Article>)
    ensures r.Err? ==> |r.errors| == 1
  {
    ParseArticleUnder(article, ItemContext("inventory", index))
  }

  /** Any JSON value is accepted as a name, unchanged. */
  lemma NameNotChecked(name: Json, id: int, stock: int)
    ensures ParseArticle(JObj(map["art_id" := JInt(id), "name" := name, "stock" := JInt(stock)]), 0)
              == Ok(Article(id, name, stock))
  {
    var article := JObj(map["art_id" := JInt(id), "name" := name, "stock" := JInt(stock)]);
    var ctx := ItemContext("inventory", 0);
    assert ParseNumericField(article, "art_id", ctx) == Ok(id);
    assert ParseField(article, "name", ctx) == Ok(name);
    assert ParseNumericField(article, "stock", ctx) == Ok(stock);
  }

  /** Every upload error the element parser raises carries one message,
      as each field helper raises it. */
  ghost predicate SingleMessages<T>(parse: (Json, nat) -> Outcome<T>) {
    forall x, i :: parse(x, i).Err? ==> |parse(x, i).errors| == 1
  }

  lemma ParseArticleSingleMessages()
    ensures SingleMessages(ParseArticle)
  {
  }

  /** The state of `_parse_article_list` after `n` iterations: the models and
      messages gathered so far, or `Crashed` once an element raised an
      exception the loop does not catch. */
  datatype Collected<T> = Collected(models: seq<T>, errors: seq<string>) | Crashed

  /** The loop over the first `n` elements. An upload error is caught and its
      text kept: `str()` of an exception raised with one message is that
      message. */
  function CollectPrefix<T>(items: seq<Json>, parse: (Json, nat) -> Outcome<T>, n: nat): Collected<T>
    requires n <= |items|
    requires SingleMessages(parse)
  {
    if n == 0 then Collected([], [])
    else
      match CollectPrefix(items, parse, n - 1)
      case Crashed => Crashed
      case Collected(models, errors) =>
        var o := parse(items[n - 1], n - 1);
        if o.Ok? then Collected(models + [o.value], errors)
        else if o.Err? then Collected(models, errors + [o.errors[0]])
        else Crashed
  }

  /** The walk's result: every element is tried, and the collected messages
      are raised together after the loop. */
  function CollectAll<T>(items: seq<Json>, parse: (Json, nat) -> Outcome<T>): Outcome<seq<T>>
    requires SingleMessages(parse)
  {
    match CollectPrefix(items, parse, |items|)
    case Crashed => Fault
    case Collected(models, errors) => if |errors| > 0 then Err(errors) else Ok(models)
  }

  /** `_parse_article_list`: the loop of the source, with the error check
      after it; `parse` is the element parser (`_parse_article`). */
  method ParseArticleList<T>(items: seq<Json>, parse: (Json, nat) -> Outcome<T>) returns (r: Outcome<seq<T>>)
    requires SingleMessages(parse)
    ensures r == CollectAll(items, parse)
  {
    var articleModels: seq<T> := [];
    var formatErrors: seq<string> := [];
    var index := 0;
    while index < |items|
      invariant index <= |items|
      invariant CollectPrefix(items, parse, index) == Collected(articleModels, formatErrors)
    {
      var outcome := parse(items[index], index);
      match outcome {
        case Ok(article) =>
          articleModels := articleModels + [article];
        case Err(errors) =>
          formatErrors := formatErrors + [errors[0]];
        case Fault =>
          CrashedStays(items, parse, index + 1, |items|);
          return Fault;
      }
      index := index + 1;
    }
    if |formatErrors| > 0 {
      return Err(formatErrors);
    }
    return Ok(articleModels);
  }

  /** An exception escaping an element ends the whole walk. */
  lemma {:induction false} CrashedStays<T>(items: seq<Json>, parse: (Json, nat) -> Outcome<T>, k: nat, n: nat)
    requires k <= n <= |items|
    requires SingleMessages(parse)
    requires CollectPrefix(items, parse, k).Crashed?
    ensures CollectPrefix(items, parse, n).Crashed?
  {
    if n > k {
      CrashedStays(items, parse, k, n - 1);
    }
  }

  /** `ArticleUploadParser.parse`. */
  function Parse(data: Json): Outcome<seq<Article>> {
    ParseArticleSingleMessages();
    var items :- ParseListField(data, "inventory", "root");
    CollectAll(items, ParseArticle)
  }

  /** What the walk over `items` ends with: a foreign exception exactly when
      some element raises one; otherwise acceptance exactly when no element
      fails, with one model per element, in order, or one message per
      failing element, in index order. */
  predicate WalkOutcome(items: seq<Json>, r: Outcome<seq<Article>>) {
    var failing := FailingIndices(items, ParseArticle, |items|);
    (r.Fault? <==> exists j :: 0 <= j < |items| && ParseArticle(items[j], j).Fault?)
    && (r.Ok? <==> !r.Fault? && failing == [])
    && (r.Ok? ==> |r.value| == |items|
                  && forall j :: 0 <= j < |items| ==> ParseArticle(items[j], j) == Ok(r.value[j]))
    && (r.Err? ==> |r.errors| == |failing|
                   && forall k :: 0 <= k < |failing| ==>
                        r.errors[k] == ParseArticle(items[failing[k]], failing[k]).errors[0])
  }

  /** `ArticleUploadParser.parse` at the level of the document: a missing or
      non-list `inventory` is reported under `root`; otherwise every element
      is tried and the result is the walk's outcome. */
  lemma ParseSpec(data: Json)
    ensures data.JObj? && "inventory" !in data.fields ==>
              Parse(data) == Err(["attribute root.inventory: not found"])
    ensures data.JObj? && "inventory" in data.fields && !data.fields["inventory"].JList? ==>
              Parse(data) == Err(["attribute root.inventory: expected list"])
    ensures data.JObj? && "inventory" in data.fields && data.fields["inventory"].JList? ==>
              WalkOutcome(data.fields["inventory"].items, Parse(data))
  {
    if data.JObj? {
      if "inventory" !in data.fields {
        ParseMissingList(data);
      } else if !data.fields["inventory"].JList? {
        ParseNonList(data);
      } else {
        ParseListed(data);
      }
    }
  }

  lemma ParseMissingList(data: Json)
    requires data.JObj? && "inventory" !in data.fields
    ensures Parse(data) == Err(["attribute root.inventory: not found"])
  {
    assert Parse(data) == Err([AttributeMessage("root", "inventory", "not found")]);
    assert AttributeMessage("root", "inventory", "not found") == "attribute root.inventory: not found";
  }

  lemma ParseNonList(data: Json)
    requires data.JObj? && "inventory" in data.fields && !data.fields["inventory"].JList?
    ensures Parse(data) == Err(["attribute root.inventory: expected list"])
  {
    assert Parse(data) == Err([AttributeMessage("root", "inventory", "expected list")]);
    assert AttributeMessage("root", "inventory", "expected list") == "attribute root.inventory: expected list";
  }

  lemma ParseListed(data: Json)
    requires data.JObj? && "inventory" in data.fields && data.fields["inventory"].JList?
    ensures WalkOutcome(data.fields["inventory"].items, Parse(data))
  {
    var items := data.fields["inventory"].items;
    ParseArticleSingleMessages();
    assert ParseListField(data, "inventory", "root") == Ok(items);
    ParseListSpec(items);
  }

  /** `_parse_article_list` over the article parser ends with the walk's
      outcome. */
  lemma ParseListSpec(items: seq<Json>)
    ensures SingleMessages(ParseArticle)
    ensures WalkOutcome(items, CollectAll(items, ParseArticle))
  {
    ParseArticleSingleMessages();
    CollectAllSpec(items, ParseArticle);
    CollectPrefixContents(items, ParseArticle, |items|);
  }

  /** The indices below `n` whose element fails with an upload error, in
      increasing order. */
  function FailingIndices<T>(items: seq<Json>, parse: (Json, nat) -> Outcome<T>, n: nat): (r: seq<nat>)
    requires n <= |items|
    ensures forall k :: 0 <= k < |r| ==> r[k] < n && parse(items[r[k]], r[k]).Err?
    ensures forall j :: 0 <= j < n && parse(items[j], j).Err? ==> j in r
    ensures forall k, l :: 0 <= k < l < |r| ==> r[k] < r[l]
  {
    if n == 0 then []
    else if parse(items[n - 1], n - 1).Err? then FailingIndices(items, parse, n - 1) + [n - 1]
    else FailingIndices(items, parse, n - 1)
  }

  lemma {:induction false} NoFailingIndices<T>(items: seq<Json>, parse: (Json, nat) -> Outcome<T>, n: nat)
    requires n <= |items|
    requires forall j :: 0 <= j < n ==> parse(items[j], j).Ok?
    ensures FailingIndices(items, parse, n) == []
  {
    if n > 0 {
      NoFailingIndices(items, parse, n - 1);
    }
  }

  /** The walk crashes exactly when some element raises a foreign exception. */
  lemma {:induction false} CollectPrefixCrashed<T>(items: seq<Json>, parse: (Json, nat) -> Outcome<T>, n: nat)
    requires n <= |items|
    requires SingleMessages(parse)
    ensures CollectPrefix(items, parse, n).Crashed? <==> exists j :: 0 <= j < n && parse(items[j], j).Fault?
  {
    if n > 0 {
      CollectPrefixCrashed(items, parse, n - 1);
    }
  }

  /** Unless it crashes, the walk holds one message per failing element, in
      index order (none for the elements that parsed); with no message, it
      holds one model per element. */
  lemma {:induction false} CollectPrefixContents<T>(items: seq<Json>, parse: (Json, nat) -> Outcome<T>, n: nat)
    requires n <= |items|
    requires SingleMessages(parse)
    ensures CollectPrefix(items, parse, n).Collected? ==>
              var errors := CollectPrefix(items, parse, n).errors;
              var failing := FailingIndices(items, parse, n);
              |errors| == |failing|
              && forall k :: 0 <= k < |failing| ==> errors[k] == parse(items[failing[k]], failing[k]).errors[0]
    ensures CollectPrefix(items, parse, n).Collected? && CollectPrefix(items, parse, n).errors == [] ==>
              var models := CollectPrefix(items, parse, n).models;
              |models| == n && forall j :: 0 <= j < n ==> parse(items[j], j) == Ok(models[j])
  {
    if n > 0 {
      CollectPrefixContents(items, parse, n - 1);
    }
  }

  /** What `_parse_article_list` promises, for any element parser: it fails
      with exactly one message per failing element, in index order, when
      some element fails and none raises another exception; otherwise it
      returns one model per element, in order. */
  lemma CollectAllSpec<T>(items: seq<Json>, parse: (Json, nat) -> Outcome<T>)
    requires SingleMessages(parse)
    ensures (forall j :: 0 <= j < |items| ==> !parse(items[j], j).Fault?) ==>
              var failing := FailingIndices(items, parse, |items|);
              var r := CollectAll(items, parse);
              if |failing| > 0 then
                r.Err? && |r.errors| == |failing|
                && forall k :: 0 <= k < |failing| ==> r.errors[k] == parse(items[failing[k]], failing[k]).errors[0]
              else
                r.Ok? && |r.value| == |items|
                && forall j :: 0 <= j < |items| ==> parse(items[j], j) == Ok(r.value[j])
    ensures CollectAll(items, parse).Fault? <==> exists j :: 0 <= j < |items| && parse(items[j], j).Fault?
  {
    CollectPrefixCrashed(items, parse, |items|);
    CollectPrefixContents(items, parse, |items|);
  }

  /** `save_article_uploads`: the articles whose id is stored go through
      `bulk_update`, the others through `bulk_create`. The statements run
      one after the other outside a transaction. */
  method SaveArticleUploads(db: Database, articles: seq<ArticleDTO>) returns (status: SaveStatus)
    requires db.Valid()
    modifies db
    ensures db.Valid()
    ensures (status, db.articles) == SaveArticlesSpec(old(db.articles), articles)
    ensures db.products == old(db.products) && db.requirements == old(db.requirements)
    ensures db.nextProductId == old(db.nextProductId)
  {
    var table := db.articles;
    var existingIds := IdSet(articles) * table.Keys;
    var existingArticles := ArticlesWithIds(articles, existingIds);
    var notExistingArticles := ArticlesWithoutIds(articles, existingIds);
    GroupsByStoredIds(articles, existingIds, table.Keys);
    var updated := db.BulkUpdateArticles(existingArticles);
    if !updated {
      return UpdateRejected;
    }
    var created := db.BulkCreateArticles(notExistingArticles);
    if !created {
      return CreateRejected;
    }
    return Saved;
  }
}
