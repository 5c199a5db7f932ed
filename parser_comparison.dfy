/** How the two list walkers differ. `parse_list_items` in
    `inventory/upload_parsers.py` checks for errors inside its loop and so
    stops at the first failing element; `_parse_article_list` in
    `inventory/business_logic.py` checks after its loop and so reports every
    failing element. On the same element parser they agree on every
    accepted list, and on a rejected one the newer walker reports only the
    first of the older walker's messages. */
module ParserComparison {
  import opened PyText
  import opened JsonValue
  import opened UploadParsers
  import opened LegacyBusinessLogic

  /** When every element parses, both walkers return the same models. */
  lemma AgreeWhenAllParse<T>(items: seq<Json>, p: (Json, nat) -> Outcome<T>,
                             q: (Json, string) -> Outcome<T>, ctx: string)
    requires forall x, j: nat :: p(x, j) == q(x, ItemContext(ctx, j))
    requires SingleMessages(p)
    requires forall j :: 0 <= j < |items| ==> p(items[j], j).Ok?
    ensures CollectAll(items, p).Ok? && ListItems(items, q, ctx) == CollectAll(items, p)
  {
    CollectAllSpec(items, p);
    ListItemsOk(items, q, ctx);
    NoFailingIndices(items, p, |items|);
    assert CollectAll(items, p).Ok?;
    var legacy := CollectAll(items, p).value;
    var current := ListItems(items, q, ctx).value;
    assert |legacy| == |current|;
    assert forall j :: 0 <= j < |items| ==> legacy[j] == current[j];
    assert legacy == current;
  }

  /** At the first element that does not parse, the newer walker stops with
      that element's failure, while the older one fails as well: with the
      same first message when no element raises a foreign exception. */
  lemma AgreeAtFirstFailure<T>(items: seq<Json>, p: (Json, nat) -> Outcome<T>,
                               q: (Json, string) -> Outcome<T>, ctx: string, k: nat)
    requires forall x, j: nat :: p(x, j) == q(x, ItemContext(ctx, j))
    requires SingleMessages(p)
    requires k < |items|
    requires forall j :: 0 <= j < k ==> p(items[j], j).Ok?
    requires !p(items[k], k).Ok?
    ensures ListItems(items, q, ctx) == FailureOf(p(items[k], k))
    ensures !CollectAll(items, p).Ok?
    ensures CollectAll(items, p).Err? ==>
              p(items[k], k).Err? && CollectAll(items, p).errors[0] == p(items[k], k).errors[0]
    ensures p(items[k], k).Fault? ==> CollectAll(items, p).Fault?
  {
    CollectAllSpec(items, p);
    ListItemsStopsAtFirstFailure(items, q, ctx, k, items);
    if CollectAll(items, p).Err? {
      var failing := FailingIndices(items, p, |items|);
      assert p(items[k], k).Err?;
      var m :| 0 <= m < |failing| && failing[m] == k;
      assert p(items[failing[0]], failing[0]).Err?;
      assert failing[0] <= failing[m];
    }
  }

  /** The two walkers on one element parser, seen through its two calling
      conventions: `p` takes the index, `q` the context `ctx[index]`. They
      accept the same lists with the same result; where the older walker
      reports its messages, the newer one reports the first of them alone;
      where the newer one meets a foreign exception, so does the older. */
  lemma WalkersAgree<T>(items: seq<Json>, p: (Json, nat) -> Outcome<T>,
                        q: (Json, string) -> Outcome<T>, ctx: string)
    requires forall x, j: nat :: p(x, j) == q(x, ItemContext(ctx, j))
    requires SingleMessages(p)
    ensures CollectAll(items, p).Ok? <==> ListItems(items, q, ctx).Ok?
    ensures CollectAll(items, p).Ok? ==> ListItems(items, q, ctx) == CollectAll(items, p)
    ensures CollectAll(items, p).Err? ==> ListItems(items, q, ctx) == Err([CollectAll(items, p).errors[0]])
    ensures ListItems(items, q, ctx).Fault? ==> CollectAll(items, p).Fault?
  {
    var k := 0;
    while k < |items| && p(items[k], k).Ok?
      invariant k <= |items|
      invariant forall j :: 0 <= j < k ==> p(items[j], j).Ok?
    {
      k := k + 1;
    }
    if k == |items| {
      AgreeWhenAllParse(items, p, q, ctx);
    } else {
      AgreeAtFirstFailure(items, p, q, ctx, k);
      var failed := p(items[k], k);
      if failed.Err? {
        assert ErrorMessage(failed.errors) == failed.errors[0];
      }
    }
  }

  /** The legacy article parser under both walkers. */
  lemma LegacyArticleWalks(items: seq<Json>)
    ensures CollectAll(items, LegacyBusinessLogic.ParseArticle).Ok? <==> ListItems(items, ParseArticleUnder, "inventory").Ok?
    ensures CollectAll(items, LegacyBusinessLogic.ParseArticle).Err? ==>
              ListItems(items, ParseArticleUnder, "inventory")
                == Err([CollectAll(items, LegacyBusinessLogic.ParseArticle).errors[0]])
  {
    ParseArticleSingleMessages();
    WalkersAgree(items, LegacyBusinessLogic.ParseArticle, ParseArticleUnder, "inventory");
  }

  /** An inventory of two empty objects: both elements lack `art_id`. The
      newer parser reports the first one only; the legacy parser reports
      both, in order. */
  lemma TwoEmptyArticles()
    ensures var data := JObj(map["inventory" := JList([JObj(map[]), JObj(map[])])]);
            UploadParsers.ParseArticles(data) == Err([AttributeMessage("inventory[0]", "art_id", "not found")])
            && LegacyBusinessLogic.Parse(data)
               == Err([AttributeMessage("inventory[0]", "art_id", "not found"),
                       AttributeMessage("inventory[1]", "art_id", "not found")])
  {
    var items := [JObj(map[]), JObj(map[])];
    var data := JObj(map["inventory" := JList(items)]);
    assert ParseListField(data, "inventory", "root") == Ok(items);
    assert ItemContext("inventory", 0) == "inventory[0]" by {
      assert NatToString(0) == "0";
    }
    assert ItemContext("inventory", 1) == "inventory[1]" by {
      assert NatToString(1) == "1";
    }
    var m0 := AttributeMessage("inventory[0]", "art_id", "not found");
    var m1 := AttributeMessage("inventory[1]", "art_id", "not found");
    assert UploadParsers.ParseArticle(items[0], "inventory[0]") == Err([m0]);
    assert LegacyBusinessLogic.ParseArticle(items[0], 0) == Err([m0]);
    assert LegacyBusinessLogic.ParseArticle(items[1], 1) == Err([m1]);
    ParseArticleSingleMessages();
    assert CollectPrefix(items, LegacyBusinessLogic.ParseArticle, 1) == Collected([], [m0]);
    assert CollectPrefix(items, LegacyBusinessLogic.ParseArticle, 2) == Collected([], [m0, m1]);
    ListItemsStopsAtFirstFailure(items, UploadParsers.ParseArticle, "inventory", 0, items);
    assert ErrorMessage([m0]) == m0;
  }
}
