/** The upload parsers of `inventory/upload_parsers.py`: field extractors that
    qualify every failure with its position in the document, the list walker
    `parse_list_items`, and the article and product document parsers. */
module UploadParsers {
  import opened PyText
  import opened JsonValue
  import opened Records

  /** How a parsing step ends: a value; an `InvalidDataUploadError` carrying its
      messages; or `Fault`, any other Python exception (a `TypeError` from `in`,
      from indexing or from `int()`), which no parser catches and which
      therefore escapes every enclosing step unchanged. */
  datatype Outcome<+T> = Ok(value: T) | Err(errors: seq<string>) | Fault
  {
    predicate IsFailure() {
      !Ok?
    }

    function PropagateFailure<U>(): Outcome<U>
      requires !Ok?
    {
      if Err? then Err(errors) else Fault
    }

    function Extract(): T
      requires Ok?
    {
      value
    }
  }

  /** `str(InvalidDataUploadError(*errors))`: the messages joined by newlines. */
  function ErrorMessage(errors: seq<string>): (m: string)
    ensures |errors| == 1 ==> m == errors[0]
  {
    Join(errors, "\n")
  }

  /** When no single message contains a newline, the joined text still tells
      the messages apart: splitting it at the newlines gives them back. */
  lemma ErrorMessageSplits(errors: seq<string>)
    requires |errors| > 0
    requires forall k :: 0 <= k < |errors| ==> '\n' !in errors[k]
    ensures Split(ErrorMessage(errors), '\n') == errors
  {
    SplitJoin(errors, '\n');
  }

  /** The one message of `InvalidUploadAttributeError(context, attribute, error)`. */
  function AttributeMessage(ctx: string, attribute: string, error: string): string
  {
    "attribute " + ctx + "." + attribute + ": " + error
  }

  /** The context of element `index` of a list whose context is `ctx`. */
  function ItemContext(ctx: string, index: nat): string
  {
    ctx + "[" + NatToString(index) + "]"
  }

  /** `parse_field`: the value under `fieldName`. `field_name not in obj` is
      Python's `in`, so on a list it tests membership, on a string it tests for
      a substring, and on a number, a boolean or `None` it raises; where that
      test passes on a non-dict, `obj[field_name]` raises. */
  function ParseField(obj: Json, fieldName: string, ctx: string): (r: Outcome<Json>)
    ensures r.Ok? <==> obj.JObj? && fieldName in obj.fields
    ensures r.Ok? ==> r.value == obj.fields[fieldName]
    ensures r.Err? ==> r.errors == [AttributeMessage(ctx, fieldName, "not found")]
    ensures obj.JObj? ==> !r.Fault?
  {
    var notFound := Err([AttributeMessage(ctx, fieldName, "not found")]);
    match obj
    case JObj(fields) => if fieldName in fields then Ok(fields[fieldName]) else notFound
    case JList(items) => if JStr(fieldName) in items then Fault else notFound
    case JStr(s) => if IsInfix(fieldName, s) then Fault else notFound
    case _ => Fault
  }

  /** `parse_numeric_field`: `int()` of the field; only `ValueError` is turned
      into an upload error. */
  function ParseNumericField(obj: Json, fieldName: string, ctx: string): (r: Outcome<int>)
    ensures r.Ok? <==> obj.JObj? && fieldName in obj.fields && ToInt(obj.fields[fieldName]).Converted?
    ensures r.Ok? ==> ToInt(obj.fields[fieldName]) == Converted(r.value)
    ensures obj.JObj? && fieldName !in obj.fields ==> r == Err([AttributeMessage(ctx, fieldName, "not found")])
    ensures obj.JObj? && fieldName in obj.fields ==>
              (ToInt(obj.fields[fieldName]).Converted? ==> r == Ok(ToInt(obj.fields[fieldName]).value))
              && (ToInt(obj.fields[fieldName]).ValueErrorRaised? ==> r == Err([AttributeMessage(ctx, fieldName, "expected number")]))
              && (ToInt(obj.fields[fieldName]).TypeErrorRaised? ==> r.Fault?)
    ensures r.Err? ==> r.errors == [AttributeMessage(ctx, fieldName, "not found")]
                       || r.errors == [AttributeMessage(ctx, fieldName, "expected number")]
  {
    var value :- ParseField(obj, fieldName, ctx);
    match ToInt(value)
    case Converted(n) => Ok(n)
    case ValueErrorRaised => Err([AttributeMessage(ctx, fieldName, "expected number")])
    case TypeErrorRaised => Fault
  }

  /** `parse_string_field`: a string field with its surrounding whitespace removed. */
  function ParseStringField(obj: Json, fieldName: string, ctx: string): (r: Outcome<string>)
    ensures r.Ok? <==> obj.JObj? && fieldName in obj.fields && obj.fields[fieldName].JStr?
    ensures r.Ok? ==> r.value == Strip(obj.fields[fieldName].s)
    ensures r.Ok? ==> IsStripped(r.value) && Strip(r.value) == r.value
    ensures obj.JObj? && fieldName !in obj.fields ==> r == Err([AttributeMessage(ctx, fieldName, "not found")])
    ensures obj.JObj? && fieldName in obj.fields && !obj.fields[fieldName].JStr? ==>
              r == Err([AttributeMessage(ctx, fieldName, "expected string")])
    ensures r.Err? ==> r.errors == [AttributeMessage(ctx, fieldName, "not found")]
                       || r.errors == [AttributeMessage(ctx, fieldName, "expected string")]
  {
    var value :- ParseField(obj, fieldName, ctx);
    if value.JStr? then
      StripIdempotent(value.s);
      Ok(Strip(value.s))
    else
      Err([AttributeMessage(ctx, fieldName, "expected string")])
  }

  /** `parse_list_field`: a list field, unchanged. */
  function ParseListField(obj: Json, fieldName: string, ctx: string): (r: Outcome<seq<Json>>)
    ensures r.Ok? <==> obj.JObj? && fieldName in obj.fields && obj.fields[fieldName].JList?
    ensures r.Ok? ==> r.value == obj.fields[fieldName].items
    ensures obj.JObj? && fieldName !in obj.fields ==> r == Err([AttributeMessage(ctx, fieldName, "not found")])
    ensures obj.JObj? && fieldName in obj.fields && !obj.fields[fieldName].JList? ==>
              r == Err([AttributeMessage(ctx, fieldName, "expected list")])
    ensures r.Err? ==> r.errors == [AttributeMessage(ctx, fieldName, "not found")]
                       || r.errors == [AttributeMessage(ctx, fieldName, "expected list")]
  {
    var value :- ParseField(obj, fieldName, ctx);
    if value.JList? then Ok(value.items)
    else Err([AttributeMessage(ctx, fieldName, "expected list")])
  }

  /** What `parse_list_items` raises when element parsing fails: the element's
      error turned into one message, or the foreign exception itself. */
  function FailureOf<T, U>(o: Outcome<T>): Outcome<U>
  {
    if o.Err? then Err([ErrorMessage(o.errors)]) else Fault
  }

  /** The state of `parse_list_items` after its first `n` iterations. Because
      the error check sits inside the loop, the first failing element ends the
      walk with a single message. */
  function ListItemsPrefix<T>(items: seq<Json>, parse: (Json, string) -> Outcome<T>, ctx: string, n: nat): Outcome<seq<T>>
    requires n <= |items|
  {
    if n == 0 then Ok([])
    else
      match ListItemsPrefix(items, parse, ctx, n - 1)
      case Ok(parsed) =>
        var o := parse(items[n - 1], ItemContext(ctx, n - 1));
        if o.Ok? then Ok(parsed + [o.value]) else FailureOf(o)
      case failed => failed
  }

  /** The result of `parse_list_items(items, parse, ctx)`. */
  function ListItems<T>(items: seq<Json>, parse: (Json, string) -> Outcome<T>, ctx: string): Outcome<seq<T>>
  {
    ListItemsPrefix(items, parse, ctx, |items|)
  }

  /** `parse_list_items`: the loop of the source, with its error check inside the
      loop body. */
  method ParseListItems<T>(items: seq<Json>, parse: (Json, string) -> Outcome<T>, ctx: string)
    returns (r: Outcome<seq<T>>)
    ensures r == ListItems(items, parse, ctx)
  {
    var parsedItems: seq<T> := [];
    var formatErrors: seq<string> := [];
    var index := 0;
    while index < |items|
      invariant index <= |items|
      invariant formatErrors == []
      invariant ListItemsPrefix(items, parse, ctx, index) == Ok(parsedItems)
    {
      var outcome := parse(items[index], ItemContext(ctx, index));
      match outcome {
        case Ok(item) =>
          parsedItems := parsedItems + [item];
        case Err(errors) =>
          formatErrors := formatErrors + [ErrorMessage(errors)];
        case Fault =>
          ListItemsPrefixFailure(items, parse, ctx, index, |items|);
          return Fault;
      }
      if |formatErrors| > 0 {
        ListItemsPrefixFailure(items, parse, ctx, index, |items|);
        return Err(formatErrors);
      }
      index := index + 1;
    }
    r := Ok(parsedItems);
  }

  /** Once the walk has reached a failing element, later elements cannot
      change the outcome. */
  lemma {:induction false} ListItemsPrefixFailure<T>(items: seq<Json>, parse: (Json, string) -> Outcome<T>, ctx: string, k: nat, n: nat)
    requires k < n <= |items|
    requires ListItemsPrefix(items, parse, ctx, k).Ok?
    requires !parse(items[k], ItemContext(ctx, k)).Ok?
    ensures ListItemsPrefix(items, parse, ctx, n) == FailureOf(parse(items[k], ItemContext(ctx, k)))
  {
    if n > k + 1 {
      ListItemsPrefixFailure(items, parse, ctx, k, n - 1);
    }
  }

  lemma {:induction false} ListItemsPrefixOk<T>(items: seq<Json>, parse: (Json, string) -> Outcome<T>, ctx: string, n: nat)
    requires n <= |items|
    ensures ListItemsPrefix(items, parse, ctx, n).Ok? <==>
              forall j :: 0 <= j < n ==> parse(items[j], ItemContext(ctx, j)).Ok?
    ensures ListItemsPrefix(items, parse, ctx, n).Ok? ==>
              var parsed := ListItemsPrefix(items, parse, ctx, n).value;
              |parsed| == n && forall j :: 0 <= j < n ==> parsed[j] == parse(items[j], ItemContext(ctx, j)).value
  {
    if n > 0 {
      ListItemsPrefixOk(items, parse, ctx, n - 1);
    }
  }

  /** `parse_list_items` succeeds exactly when every element parses; its result
      then has one entry per element, entry `i` being the element parsed under
      context `ctx[i]`. */
  lemma ListItemsOk<T>(items: seq<Json>, parse: (Json, string) -> Outcome<T>, ctx: string)
    ensures ListItems(items, parse, ctx).Ok? <==>
              forall j :: 0 <= j < |items| ==> parse(items[j], ItemContext(ctx, j)).Ok?
    ensures ListItems(items, parse, ctx).Ok? ==>
              var parsed := ListItems(items, parse, ctx).value;
              |parsed| == |items| && forall j :: 0 <= j < |items| ==> parsed[j] == parse(items[j], ItemContext(ctx, j)).value
  {
    ListItemsPrefixOk(items, parse, ctx, |items|);
  }

  /** As written, `parse_list_items` stops at the first failing element `k`: it
      raises that element's error alone, as one message, and the elements after
      `k` do not matter (they are never handed to the item parser). */
  lemma ListItemsStopsAtFirstFailure<T>(items: seq<Json>, parse: (Json, string) -> Outcome<T>, ctx: string, k: nat, other: seq<Json>)
    requires k < |items|
    requires forall j :: 0 <= j < k ==> parse(items[j], ItemContext(ctx, j)).Ok?
    requires !parse(items[k], ItemContext(ctx, k)).Ok?
    requires k < |other| && other[..k + 1] == items[..k + 1]
    ensures ListItems(items, parse, ctx) == FailureOf(parse(items[k], ItemContext(ctx, k)))
    ensures ListItems(other, parse, ctx) == ListItems(items, parse, ctx)
  {
    ListItemsPrefixOk(items, parse, ctx, k);
    ListItemsPrefixFailure(items, parse, ctx, k, |items|);
    assert forall j :: 0 <= j <= k ==> other[j] == items[j] by {
      forall j | 0 <= j <= k ensures other[j] == items[j] {
        assert other[..k + 1][j] == items[..k + 1][j];
      }
    }
    ListItemsPrefixOk(other, parse, ctx, k);
    ListItemsPrefixFailure(other, parse, ctx, k, |other|);
  }

  lemma {:induction false} ListItemsPrefixSingleError<T>(items: seq<Json>, parse: (Json, string) -> Outcome<T>, ctx: string, n: nat)
    requires n <= |items|
    ensures ListItemsPrefix(items, parse, ctx, n).Err? ==> |ListItemsPrefix(items, parse, ctx, n).errors| == 1
  {
    if n > 0 {
      ListItemsPrefixSingleError(items, parse, ctx, n - 1);
    }
  }

  /** Whatever the item parser reports, a failed walk reports one message. */
  lemma ListItemsSingleError<T>(items: seq<Json>, parse: (Json, string) -> Outcome<T>, ctx: string)
    ensures ListItems(items, parse, ctx).Err? ==> |ListItems(items, parse, ctx).errors| == 1
  {
    ListItemsPrefixSingleError(items, parse, ctx, |items|);
  }

  // ArticleUploadParser

  /** `ArticleUploadParser._parse_article`: `art_id`, `name`, `stock`, checked in
      that order. */
  function ParseArticle(article: Json, ctx: string): (r: Outcome<ArticleDTO>)
    ensures r.Ok? <==> ParseNumericField(article, "art_id", ctx).Ok?
                       && ParseStringField(article, "name", ctx).Ok?
                       && ParseNumericField(article, "stock", ctx).Ok?
    ensures !ParseNumericField(article, "art_id", ctx).Ok? ==>
              r == ParseNumericField(article, "art_id", ctx).PropagateFailure()
    ensures ParseNumericField(article, "art_id", ctx).Ok? && !ParseStringField(article, "name", ctx).Ok? ==>
              r == ParseStringField(article, "name", ctx).PropagateFailure()
    ensures ParseNumericField(article, "art_id", ctx).Ok? && ParseStringField(article, "name", ctx).Ok?
            && !ParseNumericField(article, "stock", ctx).Ok? ==>
              r == ParseNumericField(article, "stock", ctx).PropagateFailure()
    ensures r.Ok? ==> ParseNumericField(article, "art_id", ctx) == Ok(r.value.id)
                      && ParseStringField(article, "name", ctx) == Ok(r.value.name)
                      && ParseNumericField(article, "stock", ctx) == Ok(r.value.stock)
    ensures r.Ok? ==> IsStripped(r.value.name)
    ensures r.Err? ==> |r.errors| == 1
  {
    var id := ParseNumericField(article, "art_id", ctx);
    var name := ParseStringField(article, "name", ctx);
    var stock := ParseNumericField(article, "stock", ctx);
    if !id.Ok? then id.PropagateFailure()
    else if !name.Ok? then name.PropagateFailure()
    else if !stock.Ok? then stock.PropagateFailure()
    else Ok(ArticleDTO(id.value, name.value, stock.value))
  }

  /** `ArticleUploadParser.parse`. */
  function ParseArticles(data: Json): Outcome<seq<ArticleDTO>>
  {
    var articles :- ParseListField(data, "inventory", "root");
    ListItems(articles, ParseArticle, "inventory")
  }

  /** An article upload without an `inventory` key is reported under context
      `root`; an accepted upload has one article per element, in order, element
      `i` parsed under `inventory[i]` with its name stripped; a rejected one
      carries one message. */
  lemma ParseArticlesSpec(data: Json)
    ensures data.JObj? && "inventory" !in data.fields ==>
              ParseArticles(data) == Err(["attribute root.inventory: not found"])
    ensures ParseArticles(data).Ok? ==>
              var items := data.fields["inventory"].items;
              var articles := ParseArticles(data).value;
              |articles| == |items|
              && forall i :: 0 <= i < |items| ==>
                   ParseArticle(items[i], ItemContext("inventory", i)) == Ok(articles[i])
                   && IsStripped(articles[i].name)
    ensures data.JObj? && "inventory" in data.fields && data.fields["inventory"].JList?
            && (forall i :: 0 <= i < |data.fields["inventory"].items| ==>
                  ParseArticle(data.fields["inventory"].items[i], ItemContext("inventory", i)).Ok?) ==>
              ParseArticles(data).Ok?
    ensures ParseArticles(data).Err? ==> |ParseArticles(data).errors| == 1
  {
    assert AttributeMessage("root", "inventory", "not found") == "attribute root.inventory: not found";
    var fieldOutcome := ParseListField(data, "inventory", "root");
    if fieldOutcome.Ok? {
      ListItemsOk(fieldOutcome.value, ParseArticle, "inventory");
      ListItemsSingleError(fieldOutcome.value, ParseArticle, "inventory");
    }
  }

  // ProductUploadParser

  /** `ProductUploadParser._parse_product_requirement` with the quantity error
      raised as the attribute error it is evidently meant to be: a requirement
      is accepted only with a positive `amount_of`. */
  function ParseProductRequirement(obj: Json, ctx: string): (r: Outcome<CreateProductRequirementDTO>)
    ensures r.Ok? <==> ParseNumericField(obj, "art_id", ctx).Ok? && ParseNumericField(obj, "amount_of", ctx).Ok?
                       && ParseNumericField(obj, "amount_of", ctx).value > 0
    ensures !ParseNumericField(obj, "art_id", ctx).Ok? ==>
              r == ParseNumericField(obj, "art_id", ctx).PropagateFailure()
    ensures ParseNumericField(obj, "art_id", ctx).Ok? && !ParseNumericField(obj, "amount_of", ctx).Ok? ==>
              r == ParseNumericField(obj, "amount_of", ctx).PropagateFailure()
    ensures r.Ok? ==> r.value.quantity > 0
    ensures r.Ok? ==> ParseNumericField(obj, "art_id", ctx) == Ok(r.value.articleId)
                      && ParseNumericField(obj, "amount_of", ctx) == Ok(r.value.quantity)
    ensures ParseNumericField(obj, "art_id", ctx).Ok? && ParseNumericField(obj, "amount_of", ctx).Ok?
            && ParseNumericField(obj, "amount_of", ctx).value <= 0 ==>
              r == Err([AttributeMessage(ctx, "quantity", "expected value greater than 0")])
    ensures r.Err? ==> |r.errors| == 1
  {
    var articleId :- ParseNumericField(obj, "art_id", ctx);
    var quantity :- ParseNumericField(obj, "amount_of", ctx);
    if quantity <= 0 then Err([AttributeMessage(ctx, "quantity", "expected value greater than 0")])
    else Ok(CreateProductRequirementDTO(quantity, articleId))
  }

  /** `ProductUploadParser._parse_product_requirement` as written: the quantity
      error is an `InvalidDataUploadError` built from three separate arguments,
      so it carries three messages instead of one attribute message. */
  function ParseProductRequirementAsWritten(obj: Json, ctx: string): (r: Outcome<CreateProductRequirementDTO>)
    ensures r.Ok? ==> r.value.quantity > 0
    ensures ParseNumericField(obj, "art_id", ctx).Ok? && ParseNumericField(obj, "amount_of", ctx).Ok?
            && ParseNumericField(obj, "amount_of", ctx).value <= 0 ==>
              r == Err([ctx, "quantity", "expected value greater than 0"])
  {
    var articleId :- ParseNumericField(obj, "art_id", ctx);
    var quantity :- ParseNumericField(obj, "amount_of", ctx);
    if quantity <= 0 then Err([ctx, "quantity", "expected value greater than 0"])
    else Ok(CreateProductRequirementDTO(quantity, articleId))
  }

  /** The first requirement of the first product asks for zero units. As
      written, the message the upload reports is the context, the word
      `quantity` and the complaint on three lines; corrected, it has the
      `attribute <context>.<attribute>: <error>` shape of every other message. */
  lemma QuantityMessageAsWritten()
    ensures var item := JObj(map["art_id" := JInt(1), "amount_of" := JInt(0)]);
            ListItems([item], ParseProductRequirementAsWritten, "products[0]")
              == Err(["products[0][0]" + "\n" + "quantity" + "\n" + "expected value greater than 0"])
            && ListItems([item], ParseProductRequirement, "products[0]")
              == Err(["attribute " + "products[0][0]" + "." + "quantity" + ": " + "expected value greater than 0"])
  {
    var item := JObj(map["art_id" := JInt(1), "amount_of" := JInt(0)]);
    var ctx := "products[0][0]";
    assert NatToString(0) == "0";
    assert ItemContext("products[0]", 0) == ctx;
    assert ParseNumericField(item, "art_id", ctx) == Ok(1);
    assert ParseNumericField(item, "amount_of", ctx) == Ok(0);
    JoinThree(ctx, "quantity", "expected value greater than 0", "\n");
  }

  /** `ProductUploadParser._parse_product`: the requirement items are walked
      under the product's own context, giving `products[i][j]`. */
  function ParseProduct(item: Json, ctx: string): (r: Outcome<CreateProductDTO>)
    ensures r.Ok? <==> ParseStringField(item, "name", ctx).Ok? && ParseListField(item, "contain_articles", ctx).Ok?
                       && ListItems(ParseListField(item, "contain_articles", ctx).value, ParseProductRequirement, ctx).Ok?
    ensures !ParseStringField(item, "name", ctx).Ok? ==>
              r == ParseStringField(item, "name", ctx).PropagateFailure()
    ensures ParseStringField(item, "name", ctx).Ok? && !ParseListField(item, "contain_articles", ctx).Ok? ==>
              r == ParseListField(item, "contain_articles", ctx).PropagateFailure()
    ensures ParseStringField(item, "name", ctx).Ok? && ParseListField(item, "contain_articles", ctx).Ok?
            && !ListItems(ParseListField(item, "contain_articles", ctx).value, ParseProductRequirement, ctx).Ok? ==>
              r == ListItems(ParseListField(item, "contain_articles", ctx).value, ParseProductRequirement, ctx).PropagateFailure()
    ensures r.Ok? ==> ParseStringField(item, "name", ctx) == Ok(r.value.name)
    ensures r.Ok? ==> ParseListField(item, "contain_articles", ctx).Ok?
                      && ListItems(ParseListField(item, "contain_articles", ctx).value, ParseProductRequirement, ctx)
                         == Ok(r.value.requirements)
    ensures r.Err? ==> |r.errors| == 1
  {
    var name := ParseStringField(item, "name", ctx);
    var requirementItems := ParseListField(item, "contain_articles", ctx);
    if !name.Ok? then name.PropagateFailure()
    else if !requirementItems.Ok? then requirementItems.PropagateFailure()
    else
      var requirements := ListItems(requirementItems.value, ParseProductRequirement, ctx);
      ListItemsSingleError(requirementItems.value, ParseProductRequirement, ctx);
      if requirements.Ok? then Ok(CreateProductDTO(name.value, requirements.value))
      else requirements.PropagateFailure()
  }

  /** `ProductUploadParser.parse`. */
  function ParseProducts(data: Json): Outcome<seq<CreateProductDTO>>
  {
    var products :- ParseListField(data, "products", "root");
    ListItems(products, ParseProduct, "products")
  }

  /** An accepted product has its name stripped and one requirement per item of
      `contain_articles`, requirement `j` parsed under context `ctx[j]`, with a
      positive quantity. */
  lemma ParseProductSpec(item: Json, ctx: string)
    requires ParseProduct(item, ctx).Ok?
    ensures var product := ParseProduct(item, ctx).value;
            var reqItems := item.fields["contain_articles"].items;
            IsStripped(product.name)
            && |product.requirements| == |reqItems|
            && forall j :: 0 <= j < |reqItems| ==>
                 ParseProductRequirement(reqItems[j], ItemContext(ctx, j)) == Ok(product.requirements[j])
                 && product.requirements[j].quantity > 0
  {
    var reqItems := ParseListField(item, "contain_articles", ctx).value;
    ListItemsOk(reqItems, ParseProductRequirement, ctx);
  }

  /** A product upload without a `products` key is reported under context
      `root`; an accepted upload has one product per element, product `i`
      parsed under `products[i]` (so its requirements under `products[i][j]`),
      and every requirement it carries has a positive quantity. */
  lemma ParseProductsSpec(data: Json)
    ensures data.JObj? && "products" !in data.fields ==>
              ParseProducts(data) == Err(["attribute root.products: not found"])
    ensures ParseProducts(data).Ok? ==>
              var items := data.fields["products"].items;
              var products := ParseProducts(data).value;
              |products| == |items|
              && (forall i :: 0 <= i < |items| ==> ParseProduct(items[i], ItemContext("products", i)) == Ok(products[i]))
              && (forall i, j :: 0 <= i < |products| && 0 <= j < |products[i].requirements| ==>
                    products[i].requirements[j].quantity > 0)
    ensures data.JObj? && "products" in data.fields && data.fields["products"].JList?
            && (forall i :: 0 <= i < |data.fields["products"].items| ==>
                  ParseProduct(data.fields["products"].items[i], ItemContext("products", i)).Ok?) ==>
              ParseProducts(data).Ok?
    ensures ParseProducts(data).Err? ==> |ParseProducts(data).errors| == 1
  {
    assert AttributeMessage("root", "products", "not found") == "attribute root.products: not found";
    var fieldOutcome := ParseListField(data, "products", "root");
    if fieldOutcome.Ok? {
      var items := fieldOutcome.value;
      ListItemsOk(items, ParseProduct, "products");
      ListItemsSingleError(items, ParseProduct, "products");
      if ParseProducts(data).Ok? {
        ParsedQuantitiesPositive(items, ParseProducts(data).value);
      }
    }
  }

  /** Products parsed one per element carry only positive quantities. */
  lemma ParsedQuantitiesPositive(items: seq<Json>, products: seq<CreateProductDTO>)
    requires |products| == |items|
    requires forall i :: 0 <= i < |items| ==> ParseProduct(items[i], ItemContext("products", i)) == Ok(products[i])
    ensures forall i, j :: 0 <= i < |products| && 0 <= j < |products[i].requirements| ==>
              products[i].requirements[j].quantity > 0
  {
    forall i, j | 0 <= i < |products| && 0 <= j < |products[i].requirements|
      ensures products[i].requirements[j].quantity > 0
    {
      ParseProductSpec(items[i], ItemContext("products", i));
    }
  }
}
